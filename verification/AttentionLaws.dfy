/** Which frames ask for attention, what the summaries count, and when an observation is taken. */
module AttentionLaws {
  import opened Basics
  import opened TerminalEffects
  import opened AgentCapture
  import opened AttentionObserver
  import opened AttentionRendering

  /** Notifications of OSC 9 and 777 of any kind, and those of OSC 99 that the analyser accepts. */
  ghost predicate Notifies(m: OscMatch) {
    && (m.payload.Some? ==> NoTerminator(m.payload.value))
    && (m.code == Ascii("9") || m.code == Ascii("777") || (m.code == Ascii("99") && Accepts(m.payload)))
  }

  /** A frame asks for attention exactly when it is such a notification, with either terminator. */
  lemma AttentionExact(frame: seq<byte>)
    ensures IsAttention(frame) <==> exists m: OscMatch, bel: bool :: frame == MatchText(m, bel) && Notifies(m)
  {
    hide Notifies, MatchText, IsAttention;
    if IsAttention(frame) {
      var m := MatchOsc(frame).value;
      AttentionNotifies(frame, m);
    }
    forall m: OscMatch, bel: bool | frame == MatchText(m, bel) && Notifies(m) ensures IsAttention(frame) {
      NotifiesAttention(m, bel);
    }
  }

  lemma AttentionNotifies(frame: seq<byte>, m: OscMatch)
    requires IsAttention(frame) && MatchOsc(frame) == Some(m)
    ensures Notifies(m) && exists bel: bool :: frame == MatchText(m, bel)
  {
    CodesAre();
    hide Ascii, MatchText, NoTerminator, Accepts, MatchOsc;
    MatchExact(frame, m);
  }

  lemma NotifiesAttention(m: OscMatch, bel: bool)
    requires Notifies(m)
    ensures IsAttention(MatchText(m, bel))
  {
    CodesAre();
    hide Ascii, MatchText, NoTerminator, Accepts, MatchOsc;
    MatchExact(MatchText(m, bel), m);
  }

  lemma CodesAre()
    ensures Ascii("9") == CODE_NOTIFY && Ascii("777") == CODE_RXVT_NOTIFY && Ascii("99") == CODE_KITTY_NOTIFY
  {
    assert Ascii("9") == [57] && Ascii("777") == [55, 55, 55] && Ascii("99") == [57, 57];
  }

  // ---- An example --------------------------------------------------------------

  /** A bell, a notification, a device control string with a bell inside, and a window title. */
  function ExampleSegments(): seq<Segment> {
    [Plain(7), Text(93, Ascii("9;h"), true), Text(80, [7], false), Text(93, Ascii("0;t"), true)]
  }

  lemma ExampleFrames()
    ensures IsAttention(Render(Text(93, Ascii("9;h"), true)))
    ensures MatchOsc(Render(Text(93, Ascii("9;h"), true))) == Some(OscMatch(Ascii("9"), Some(Ascii("h"))))
    ensures !IsAttention(Render(Text(93, Ascii("0;t"), true)))
  {
    FrameBytes();
    hide Ascii, IsAttention;
    var note, title := OscMatch(Ascii("9"), Some(Ascii("h"))), OscMatch(Ascii("0"), Some(Ascii("t")));
    MatchExact(MatchText(note, true), note);
    MatchExact(MatchText(title, true), title);
    hide MatchOsc, MatchText;
    FrameVerdicts();
  }

  lemma FrameBytes()
    ensures Render(Text(93, Ascii("9;h"), true)) == MatchText(OscMatch(Ascii("9"), Some(Ascii("h"))), true)
    ensures Render(Text(93, Ascii("0;t"), true)) == MatchText(OscMatch(Ascii("0"), Some(Ascii("t"))), true)
    ensures AllDecimal(Ascii("9")) && AllDecimal(Ascii("0"))
    ensures NoTerminator(Ascii("h")) && NoTerminator(Ascii("t"))
  {
    assert Ascii("9;h") == [57, 59, 104] && Ascii("9") == [57] && Ascii("h") == [104];
    assert Ascii("0;t") == [48, 59, 116] && Ascii("0") == [48] && Ascii("t") == [116];
    hide Ascii;
  }

  lemma FrameVerdicts()
    ensures forall frame, rest :: MatchOsc(frame) == Some(OscMatch(Ascii("9"), rest)) ==> IsAttention(frame)
    ensures forall frame, rest :: MatchOsc(frame) == Some(OscMatch(Ascii("0"), rest)) ==> !IsAttention(frame)
  {
    assert Ascii("9") == [57] && Ascii("0") == [48];
    hide Ascii, MatchOsc;
  }

  /** Only the bell and the notification count, the notification from its escape to its terminator. */
  lemma ScanExample()
    ensures Scan(RenderAll(ExampleSegments()), 0)
            == [AttentionEvent(StandaloneBell, 0, 1), AttentionEvent(Kind.Osc(Ascii("9")), 1, 7)]
  {
    var segments := ExampleSegments();
    ExampleWellMade();
    ExampleFrames();
    ExampleCounted();
    hide *;
    ScanOfRendering([], segments);
    assert [] + RenderAll(segments) == RenderAll(segments);
  }

  lemma ExampleWellMade()
    ensures AllWellMade(ExampleSegments())
  {
    var segments := ExampleSegments();
    assert Ascii("9;h") == [57, 59, 104] && Ascii("0;t") == [48, 59, 116];
    forall i | 0 <= i < |segments|
      ensures WellMade(segments[i]) && Separate(segments[i], RenderAll(segments[i + 1..]))
    {
    }
  }

  lemma ExampleCounted()
    ensures CountedAll(ExampleSegments(), 0)
            == [AttentionEvent(StandaloneBell, 0, 1), AttentionEvent(Kind.Osc(Ascii("9")), 1, 7)]
  {
    ExampleFrames();
    var s := ExampleSegments();
    assert |Ascii("9;h")| == 3 && |Ascii("0;t")| == 3;
    hide MatchOsc, IsAttention, Ascii;
    assert s[1..] == [s[1], s[2], s[3]] && s[1..][1..] == [s[2], s[3]] && s[1..][1..][1..] == [s[3]];
    assert [s[3]][1..] == [];
    assert Counted(s[3], 12) == [] && CountedAll([s[3]], 12) == [];
    assert CountedAll([s[2], s[3]], 7) == Counted(s[2], 7) + CountedAll([s[3]], 12);
    assert CountedAll([s[1], s[2], s[3]], 1) == Counted(s[1], 1) + CountedAll([s[2], s[3]], 7);
  }

  // ---- Summaries -----------------------------------------------------------------

  /** `part` holds exactly the events that end by a mark, as often as they occur; none without a mark. */
  ghost predicate PicksEnding(part: seq<AttentionEvent>, events: seq<AttentionEvent>, mark: Option<int>) {
    forall e :: multiset(part)[e] == if mark.Some? && e.end <= mark.value then multiset(events)[e] else 0
  }

  /** The same for the events that start at a mark or behind it. */
  ghost predicate PicksStarting(part: seq<AttentionEvent>, events: seq<AttentionEvent>, mark: Option<int>) {
    forall e :: multiset(part)[e] == if mark.Some? && e.start >= mark.value then multiset(events)[e] else 0
  }

  lemma SameLength(a: seq<AttentionEvent>, b: seq<AttentionEvent>)
    requires forall e :: multiset(a)[e] == multiset(b)[e]
    ensures |a| == |b|
  {
    assert multiset(a) == multiset(b);
    assert |multiset(a)| == |a| && |multiset(b)| == |b|;
  }

  lemma {:induction false} EndingPicks(events: seq<AttentionEvent>, mark: nat)
    ensures PicksEnding(EndingBy(events, mark), events, Some(mark))
  {
    if |events| > 0 {
      EndingPicks(events[1..], mark);
      assert events == [events[0]] + events[1..];
    }
  }

  lemma {:induction false} StartingPicks(events: seq<AttentionEvent>, mark: nat)
    ensures PicksStarting(StartingFrom(events, mark), events, Some(mark))
  {
    if |events| > 0 {
      StartingPicks(events[1..], mark);
      assert events == [events[0]] + events[1..];
    }
  }

  lemma EndingCount(part: seq<AttentionEvent>, events: seq<AttentionEvent>, mark: Option<int>)
    requires PicksEnding(part, events, mark) && (mark.Some? ==> mark.value >= 0)
    ensures |part| == if mark.Some? then |EndingBy(events, mark.value)| else 0
  {
    if mark.Some? {
      EndingPicks(events, mark.value);
      SameLength(part, EndingBy(events, mark.value));
    } else {
      SameLength(part, []);
    }
  }

  lemma StartingCount(part: seq<AttentionEvent>, events: seq<AttentionEvent>, mark: Option<int>)
    requires PicksStarting(part, events, mark) && (mark.Some? ==> mark.value >= 0)
    ensures |part| == if mark.Some? then |StartingFrom(events, mark.value)| else 0
  {
    if mark.Some? {
      StartingPicks(events, mark.value);
      SameLength(part, StartingFrom(events, mark.value));
    } else {
      SameLength(part, []);
    }
  }

  /** The counts are those of the events that end by the first mark, start behind the second, and start behind the
      first; the rest lies between or across. Without a mark there are none on its side. */
  lemma SummaryMeans(c: Capture, marks: Marks, early: seq<AttentionEvent>, late: seq<AttentionEvent>,
                     after: seq<AttentionEvent>)
    requires MarksInOrder(c.bytes, marks)
    requires PicksEnding(early, c.events, marks.before) && PicksStarting(late, c.events, marks.hidden)
    requires PicksStarting(after, c.events, marks.before)
    ensures Summarize(c, marks)
            == Ok(Summary(|c.events|, |early|, |c.events| - |early| - |late|, |late|, |after|))
  {
    hide EndingBy, StartingFrom, PicksEnding, PicksStarting;
    EndingCount(early, c.events, marks.before);
    StartingCount(late, c.events, marks.hidden);
    StartingCount(after, c.events, marks.before);
  }

  /** An observation is taken exactly when there are at most 4096 events, its mark is not set yet, and the marks stay in
      order inside the capture; a barrier then marks the capture's end, anything else marks nothing. */
  lemma ObservationTaken(data: seq<byte>, marks: Marks, action: Action)
    ensures var n := |data|;
            var before := if action == BeforeMinimize then Some(n) else marks.before;
            var hidden := if action == AfterHidden then Some(n) else marks.hidden;
            var r := ObserveOnce(data, marks, action);
            && (r.Ok? <==>
                  && |Scan(data, 0)| <= 4096
                  && (action == BeforeMinimize ==> marks.before == None)
                  && (action == AfterHidden ==> marks.hidden == None)
                  && (before.Some? ==> 0 <= before.value <= n)
                  && (hidden.Some? ==> before.Some? && before.value <= hidden.value <= n))
            && (r.Ok? ==> r.value.0 == Marks(before, hidden)
                          && Summarize(Capture(n, Scan(data, 0)), r.value.0) == Ok(r.value.1))
  {
    hide Scan;
  }
}
