/** The outer-terminal observer: attention events of a growing capture, and checkpoints over it. */
module AttentionObserver {
  import opened Basics
  import opened TerminalEffects
  import opened AgentCapture

  const EVENT_LIMIT: nat := 4096
  const BACKSLASH: byte := 92
  const CLOSE_BRACKET: byte := 93

  // ---- The OSC pattern -----------------------------------------------------

  datatype OscMatch = OscMatch(code: seq<byte>, payload: Option<seq<byte>>)

  predicate AllDecimal(s: seq<byte>) {
    |s| > 0 && forall k :: 0 <= k < |s| ==> 48 <= s[k] <= 57
  }

  predicate NoTerminator(s: seq<byte>) {
    BEL !in s && ESC !in s
  }

  /** A full match of the pattern: digits, then optionally `;` and a payload without BEL or ESC. */
  function MatchOsc(frame: seq<byte>): (r: Option<OscMatch>) {
    var n := |frame|;
    var end := if n >= 1 && frame[n - 1] == BEL then n - 1
               else if n >= 2 && frame[n - 2..] == STRING_TERMINATOR then n - 2 else 0;
    if end < 2 || frame[..2] != OSC_START then None
    else
      var body := frame[2..end];
      var split := IndexFrom(body, SEMICOLON, 0);
      if !AllDecimal(body[..split]) then None
      else if split == |body| then Some(OscMatch(body, None))
      else if NoTerminator(body[split + 1..]) then Some(OscMatch(body[..split], Some(body[split + 1..])))
      else None
  }

  function MatchText(m: OscMatch, bel: bool): seq<byte> {
    OSC_START + m.code + (if m.payload.Some? then [SEMICOLON] + m.payload.value else [])
    + (if bel then [BEL] else STRING_TERMINATOR)
  }

  /** The function above decides the language of the regular expression and extracts its groups. */
  lemma MatchExact(frame: seq<byte>, m: OscMatch)
    ensures MatchOsc(frame) == Some(m) <==>
            && AllDecimal(m.code) && (m.payload.Some? ==> NoTerminator(m.payload.value))
            && exists bel: bool :: frame == MatchText(m, bel)
  {
    if MatchOsc(frame) == Some(m) {
      TextOfMatch(frame);
    }
    if AllDecimal(m.code) && (m.payload.Some? ==> NoTerminator(m.payload.value)) {
      MatchOfText(m, true);
      MatchOfText(m, false);
    }
  }

  lemma TextOfMatch(frame: seq<byte>)
    requires MatchOsc(frame).Some?
    ensures frame == MatchText(MatchOsc(frame).value, frame[|frame| - 1] == BEL)
  {
    hide AllDecimal, NoTerminator, IndexFrom;
    var bel := frame[|frame| - 1] == BEL;
    var end := if bel then |frame| - 1 else |frame| - 2;
    var m := MatchOsc(frame).value;
    var body := frame[2..end];
    assert body == m.code + if m.payload.Some? then [SEMICOLON] + m.payload.value else [];
    assert frame == OSC_START + body + frame[end..];
    assert frame[end..] == if bel then [BEL] else STRING_TERMINATOR;
  }

  lemma MatchOfText(m: OscMatch, bel: bool)
    requires AllDecimal(m.code) && (m.payload.Some? ==> NoTerminator(m.payload.value))
    ensures MatchOsc(MatchText(m, bel)) == Some(m)
  {
    hide IndexFrom;
    var frame := MatchText(m, bel);
    var body := m.code + if m.payload.Some? then [SEMICOLON] + m.payload.value else [];
    assert frame == OSC_START + body + if bel then [BEL] else STRING_TERMINATOR;
    assert frame[2..2 + |body|] == body;
    IndexIs(body, SEMICOLON, 0, |m.code|);
    assert body[..|m.code|] == m.code;
    if m.payload.Some? {
      assert body[|m.code| + 1..] == m.payload.value;
    } else {
      assert body == m.code;
    }
  }

  /** Whether a complete OSC frame asks for attention. */
  predicate IsAttention(frame: seq<byte>): (r: bool)
    ensures r ==> MatchOsc(frame).Some?
  {
    match MatchOsc(frame)
    case None => false
    case Some(m) =>
      m.code == CODE_NOTIFY || m.code == CODE_RXVT_NOTIFY || (m.code == CODE_KITTY_NOTIFY && Accepts(m.payload))
  }

  // ---- Scanning a capture --------------------------------------------------

  datatype Kind = StandaloneBell | Osc(code: seq<byte>)

  datatype AttentionEvent = AttentionEvent(kind: Kind, start: nat, end: nat)

  /** OSC, DCS, SOS, PM and APC open a string. */
  predicate Introducer(data: seq<byte>, at: nat) {
    at + 1 < |data| && data[at] == ESC && data[at + 1] in {93, 80, 88, 94, 95}
  }

  /** End of the first terminator at or after `from`; BEL terminates only an OSC. */
  function TerminatorEnd(data: seq<byte>, from: nat, osc: bool): (r: Option<nat>)
    ensures r.Some? ==> from < r.value <= |data|
    decreases |data| - from
  {
    if from >= |data| then None
    else if osc && data[from] == BEL then Some(from + 1)
    else if from + 1 < |data| && data[from] == ESC && data[from + 1] == BACKSLASH then Some(from + 2)
    else TerminatorEnd(data, from + 1, osc)
  }

  /** What the scanner reads at `cursor`: the events it appends and where it goes on; `None` when a
      string is still open, so that its payload never counts as a bell of its own. */
  function Step(data: seq<byte>, cursor: nat): (r: Option<(seq<AttentionEvent>, nat)>)
    requires cursor < |data|
    ensures r.Some? ==> cursor < r.value.1 <= |data|
    ensures r.Some? && r.value.0 != [] ==> r.value.0 == [AttentionEvent(r.value.0[0].kind, cursor, r.value.1)]
  {
    if Introducer(data, cursor) then
      var osc := data[cursor + 1] == CLOSE_BRACKET;
      match TerminatorEnd(data, cursor + 2, osc)
      case None => None
      case Some(end) =>
        var frame := data[cursor..end];
        Some((if osc && IsAttention(frame) then [AttentionEvent(Kind.Osc(MatchOsc(frame).value.code), cursor, end)]
            else [],
              end))
    else Some((if data[cursor] == BEL then [AttentionEvent(StandaloneBell, cursor, cursor + 1)] else [], cursor + 1))
  }

  /** The attention events of the capture from `cursor` on. */
  function Scan(data: seq<byte>, cursor: nat): seq<AttentionEvent>
    decreases |data| - cursor
  {
    if cursor >= |data| then []
    else match Step(data, cursor)
      case None => []
      case Some((events, next)) => events + Scan(data, next)
  }

  /** One round of the scanner's loop. */
  method ReadOne(data: seq<byte>, start: nat) returns (next: Option<nat>, found: seq<AttentionEvent>)
    requires start < |data|
    ensures Step(data, start) == if next == None then None else Some((found, next.value))
  {
    hide IsAttention, TerminatorEnd, MatchOsc;
    found := [];
    if Introducer(data, start) {
      var osc := data[start + 1] == CLOSE_BRACKET;
      next := TerminatorEnd(data, start + 2, osc);
      if next.Some? {
        var frame := data[start..next.value];
        if osc && IsAttention(frame) {
          found := [AttentionEvent(Kind.Osc(MatchOsc(frame).value.code), start, next.value)];
        }
      }
    } else {
      next := Some(start + 1);
      if data[start] == BEL {
        found := [AttentionEvent(StandaloneBell, start, start + 1)];
      }
    }
  }

  method AttentionEvents(data: seq<byte>) returns (r: Result<seq<AttentionEvent>, string>)
    ensures r.Ok? <==> |Scan(data, 0)| <= EVENT_LIMIT
    ensures r.Ok? ==> r.value == Scan(data, 0)
  {
    hide Step, Scan;
    var events: seq<AttentionEvent> := [];
    var cursor := 0;
    while cursor < |data|
      invariant 0 <= cursor <= |data|
      invariant Scan(data, 0) == events + Scan(data, cursor)
      invariant |events| <= EVENT_LIMIT
    {
      ScanUnfold(data, cursor);
      var next, found := ReadOne(data, cursor);
      if next == None {
        return Ok(events);
      }
      assert events + (found + Scan(data, next.value)) == events + found + Scan(data, next.value);
      cursor, events := next.value, events + found;
      if |events| > EVENT_LIMIT {
        return Err("outer attention event limit exceeded");
      }
    }
    ScanDone(data, cursor);
    return Ok(events);
  }

  lemma ScanUnfold(data: seq<byte>, cursor: nat)
    requires cursor < |data|
    ensures Scan(data, cursor) ==
            if Step(data, cursor) == None then []
            else Step(data, cursor).value.0 + Scan(data, Step(data, cursor).value.1)
  {
  }

  lemma ScanDone(data: seq<byte>, cursor: nat)
    requires cursor >= |data|
    ensures Scan(data, cursor) == []
  {
  }

  /** Events lie in the capture, follow each other without overlap and are never empty. */
  predicate Ordered(events: seq<AttentionEvent>, low: nat, high: nat) {
    && (forall i :: 0 <= i < |events| ==> low <= events[i].start < events[i].end <= high)
    && forall i, j :: 0 <= i < j < |events| ==> events[i].end <= events[j].start
  }

  lemma {:induction false} ScanOrdered(data: seq<byte>, cursor: nat)
    ensures Ordered(Scan(data, cursor), cursor, |data|)
    decreases |data| - cursor
  {
    hide Step;
    if cursor < |data| && Step(data, cursor).Some? {
      ScanOrdered(data, Step(data, cursor).value.1);
    }
  }

  function EndingBy(events: seq<AttentionEvent>, mark: nat): (r: seq<AttentionEvent>) {
    if |events| == 0 then []
    else (if events[0].end <= mark then [events[0]] else []) + EndingBy(events[1..], mark)
  }

  lemma {:induction false} EndingByAppend(a: seq<AttentionEvent>, b: seq<AttentionEvent>, mark: nat)
    ensures EndingBy(a + b, mark) == EndingBy(a, mark) + EndingBy(b, mark)
  {
    if |a| == 0 {
      assert a + b == b;
    } else {
      EndingByAppend(a[1..], b, mark);
      assert (a + b)[0] == a[0] && (a + b)[1..] == a[1..] + b;
      var head := if a[0].end <= mark then [a[0]] else [];
      assert head + (EndingBy(a[1..], mark) + EndingBy(b, mark)) == head + EndingBy(a[1..], mark) + EndingBy(b, mark);
    }
  }

  lemma {:induction false} NoneEndBy(events: seq<AttentionEvent>, mark: nat)
    requires forall i :: 0 <= i < |events| ==> events[i].end > mark
    ensures EndingBy(events, mark) == []
  {
    if |events| > 0 {
      NoneEndBy(events[1..], mark);
    }
  }

  lemma LateScan(data: seq<byte>, cursor: nat, mark: nat)
    requires cursor >= mark
    ensures EndingBy(Scan(data, cursor), mark) == []
  {
    ScanOrdered(data, cursor);
    NoneEndBy(Scan(data, cursor), mark);
  }

  /** Cutting the capture keeps a terminator exactly when all of it lies before the cut. */
  lemma {:induction false} TerminatorInPrefix(data: seq<byte>, mark: nat, from: nat, osc: bool)
    requires mark <= |data|
    ensures var whole := TerminatorEnd(data, from, osc);
            TerminatorEnd(data[..mark], from, osc) == if whole.Some? && whole.value <= mark then whole else None
    decreases |data| - from
  {
    if from < |data| {
      TerminatorInPrefix(data, mark, from + 1, osc);
    }
  }

  /** A step that ends by the cut is the same step in the cut capture. */
  lemma StepInPrefix(data: seq<byte>, mark: nat, cursor: nat)
    requires cursor < mark <= |data|
    ensures var whole := Step(data, cursor);
            var cut := Step(data[..mark], cursor);
            if whole.Some? && whole.value.1 <= mark then cut == whole
            else cut == None || cut == Some(([], mark))
  {
    hide IsAttention, TerminatorEnd, MatchOsc;
    if Introducer(data, cursor) {
      var osc := data[cursor + 1] == CLOSE_BRACKET;
      TerminatorInPrefix(data, mark, cursor + 2, osc);
      var end := TerminatorEnd(data, cursor + 2, osc);
      if end.Some? && end.value <= mark {
        assert data[..mark][cursor..end.value] == data[cursor..end.value];
      }
    }
  }

  /** Cutting a capture at `mark` keeps exactly the events that end by `mark`. */
  lemma {:induction false} PrefixStable(data: seq<byte>, mark: nat, cursor: nat)
    requires mark <= |data|
    ensures EndingBy(Scan(data, cursor), mark) == Scan(data[..mark], cursor)
    decreases |data| - cursor
  {
    hide Step;
    if cursor >= mark {
      LateScan(data, cursor, mark);
    } else {
      StepInPrefix(data, mark, cursor);
      var step := Step(data, cursor);
      if step.Some? {
        var events, next := step.value.0, step.value.1;
        EndingByAppend(events, Scan(data, next), mark);
        if next <= mark {
          PrefixStable(data, mark, next);
          assert EndingBy(events, mark) == events;
        } else {
          LateScan(data, next, mark);
          assert EndingBy(events, mark) == [];
        }
      }
    }
  }

  // ---- Checkpoint summaries ------------------------------------------------

  datatype Marks = Marks(before: Option<int>, hidden: Option<int>)

  datatype Capture = Capture(bytes: nat, events: seq<AttentionEvent>)

  datatype Summary =
      Summary(total: nat, beforeMinimize: nat, hideInterval: int, afterHidden: nat, afterMinimizeStart: nat)

  function StartingFrom(events: seq<AttentionEvent>, mark: nat): (r: seq<AttentionEvent>) {
    if |events| == 0 then []
    else (if events[0].start >= mark then [events[0]] else []) + StartingFrom(events[1..], mark)
  }

  /** Events on neither side of the two checkpoints. */
  function Between(events: seq<AttentionEvent>, before: Option<nat>, hidden: Option<nat>): (r: seq<AttentionEvent>) {
    if |events| == 0 then []
    else
      (if IsEarly(events[0], before) || IsLate(events[0], hidden) then [] else [events[0]])
      + Between(events[1..], before, hidden)
  }

  predicate MarksInOrder(bytes: nat, marks: Marks) {
    && (marks.before.Some? ==> 0 <= marks.before.value <= bytes)
    && (marks.hidden.Some? ==> marks.before.Some? && marks.before.value <= marks.hidden.value <= bytes)
  }

  function Summarize(capture: Capture, marks: Marks): (r: Result<Summary, string>)
    ensures r.Ok? <==> MarksInOrder(capture.bytes, marks)
  {
    if marks.before.Some? && !(0 <= marks.before.value <= capture.bytes) then
      Err("outer capture shrank after checkpoint")
    else if marks.hidden.Some?
        && (marks.before.None? || !(marks.before.value <= marks.hidden.value <= capture.bytes)) then
      Err("outer hidden checkpoint is out of order")
    else
      var events := capture.events;
      var early := if marks.before.Some? then EndingBy(events, marks.before.value) else [];
      var late := if marks.hidden.Some? then StartingFrom(events, marks.hidden.value) else [];
      var afterStart := if marks.before.Some? then StartingFrom(events, marks.before.value) else [];
      Ok(Summary(|events|, |early|, |events| - |early| - |late|, |late|, |afterStart|))
  }

  function NatMark(m: Option<int>): Option<nat> {
    if m.Some? && m.value >= 0 then Some(m.value as nat) else None
  }

  predicate IsEarly(e: AttentionEvent, before: Option<nat>) {
    before.Some? && e.end <= before.value
  }

  predicate IsLate(e: AttentionEvent, hidden: Option<nat>) {
    hidden.Some? && e.start >= hidden.value
  }

  function Early(events: seq<AttentionEvent>, before: Option<nat>): seq<AttentionEvent> {
    if before.Some? then EndingBy(events, before.value) else []
  }

  function Late(events: seq<AttentionEvent>, hidden: Option<nat>): seq<AttentionEvent> {
    if hidden.Some? then StartingFrom(events, hidden.value) else []
  }

  /** Every event falls into exactly one of: before the first checkpoint, between, after the second. */
  lemma {:induction false} SplitIsPartition(events: seq<AttentionEvent>, before: Option<nat>, hidden: Option<nat>)
    requires forall i :: 0 <= i < |events| ==> events[i].start < events[i].end
    requires before.Some? && hidden.Some? ==> before.value <= hidden.value
    ensures |events| == |Early(events, before)| + |Between(events, before, hidden)| + |Late(events, hidden)|
    ensures multiset(events) ==
            multiset(Early(events, before)) + multiset(Between(events, before, hidden)) + multiset(Late(events, hidden))
  {
    hide EndingBy, StartingFrom, Between, Early, Late;
    if |events| == 0 {
      NothingToSplit(before, hidden);
      assert events == [];
    } else {
      var e, rest := events[0], events[1..];
      SplitIsPartition(rest, before, hidden);
      SplitStep(events, before, hidden);
      assert multiset(events) == multiset{e} + multiset(rest) by {
        assert events == [e] + rest;
      }
    }
  }

  lemma NothingToSplit(before: Option<nat>, hidden: Option<nat>)
    ensures Early([], before) == Between([], before, hidden) == Late([], hidden) == []
  {
  }

  lemma SplitStep(events: seq<AttentionEvent>, before: Option<nat>, hidden: Option<nat>)
    requires |events| > 0
    ensures var e, rest := events[0], events[1..];
            && Early(events, before) == (if IsEarly(e, before) then [e] else []) + Early(rest, before)
            && Late(events, hidden) == (if IsLate(e, hidden) then [e] else []) + Late(rest, hidden)
            && Between(events, before, hidden)
               == (if IsEarly(e, before) || IsLate(e, hidden) then [] else [e]) + Between(rest, before, hidden)
  {
  }

  /** The reported interval count is the number of events on neither side. */
  lemma SummaryCounts(data: seq<byte>, marks: Marks)
    requires MarksInOrder(|data|, marks)
    ensures var s := Summarize(Capture(|data|, Scan(data, 0)), marks).value;
            && s.hideInterval == |Between(Scan(data, 0), NatMark(marks.before), NatMark(marks.hidden))|
            && s.total == s.beforeMinimize + s.hideInterval + s.afterHidden
  {
    hide Scan, EndingBy, StartingFrom, Between;
    ScanOrdered(data, 0);
    SplitIsPartition(Scan(data, 0), NatMark(marks.before), NatMark(marks.hidden));
  }

  /** At most one event has bytes on both sides of a checkpoint. */
  lemma OneStraddles(data: seq<byte>, mark: nat, i: nat, j: nat)
    requires i < |Scan(data, 0)| && j < |Scan(data, 0)|
    requires var e := Scan(data, 0)[i]; e.start < mark < e.end
    requires var e := Scan(data, 0)[j]; e.start < mark < e.end
    ensures i == j
  {
    hide Scan;
    ScanOrdered(data, 0);
    var events := Scan(data, 0);
    assert events[i].end <= events[j].start || j <= i;
  }

  /** Whatever the capture grows to, the count before a checkpoint is that of the data cut there. */
  lemma BeforeCountStable(data: seq<byte>, marks: Marks)
    requires MarksInOrder(|data|, marks) && marks.before.Some?
    ensures Summarize(Capture(|data|, Scan(data, 0)), marks).value.beforeMinimize
            == |Scan(data[..marks.before.value], 0)|
  {
    hide Scan, EndingBy;
    PrefixStable(data, marks.before.value, 0);
  }

  // ---- Observations over a growing capture ---------------------------------

  datatype Action = BeforeMinimize | AfterHidden | Probe | Finish

  /** One observation: the two barrier actions persist their checkpoint once, after validating the order. */
  function ObserveOnce(data: seq<byte>, marks: Marks, action: Action): Result<(Marks, Summary), string> {
    if |Scan(data, 0)| > EVENT_LIMIT then Err("outer attention event limit exceeded")
    else if (action == BeforeMinimize && marks.before.Some?) || (action == AfterHidden && marks.hidden.Some?) then
      Err("outer checkpoint cannot be replaced")
    else
      var next := match action
                  case BeforeMinimize => marks.(before := Some(|data|))
                  case AfterHidden => marks.(hidden := Some(|data|))
                  case _ => marks;
      match Summarize(Capture(|data|, Scan(data, 0)), next)
      case Ok(summary) => Ok((next, summary))
      case Err(e) => Err(e)
  }

  /** The checkpoint file as one observer process after another leaves it; a failed one changes nothing. */
  class Observer {
    var marks: Marks

    constructor ()
      ensures marks == Marks(None, None)
    {
      marks := Marks(None, None);
    }

    method Observe(data: seq<byte>, action: Action) returns (r: Result<Summary, string>)
      modifies this
      ensures ObserveOnce(data, old(marks), action).Err? ==> r.Err? && marks == old(marks)
      ensures ObserveOnce(data, old(marks), action).Ok? ==>
                (marks, r) == (ObserveOnce(data, old(marks), action).value.0,
                               Ok(ObserveOnce(data, old(marks), action).value.1))
    {
      hide Scan;
      var events := AttentionEvents(data);
      if events.Err? {
        return Err(events.error);
      }
      var capture := Capture(|data|, events.value);
      var next := marks;
      if action == BeforeMinimize || action == AfterHidden {
        if (action == BeforeMinimize && marks.before.Some?) || (action == AfterHidden && marks.hidden.Some?) {
          return Err("outer checkpoint cannot be replaced");
        }
        next := if action == BeforeMinimize then marks.(before := Some(|data|)) else marks.(hidden := Some(|data|));
        var validation := Summarize(capture, next);
        if validation.Err? {
          return Err(validation.error);
        }
        marks := next;
      }
      r := Summarize(capture, next);
    }
  }

  datatype Observation = Observation(data: seq<byte>, action: Action)

  predicate Growing(run: seq<Observation>) {
    forall i, j :: 0 <= i <= j < |run| ==> run[i].data <= run[j].data
  }

  function NextMarks(marks: Marks, o: Observation): Marks {
    match ObserveOnce(o.data, marks, o.action)
    case Ok(pair) => pair.0
    case Err(_) => marks
  }

  function MarksAfter(run: seq<Observation>): Marks {
    if |run| == 0 then Marks(None, None) else NextMarks(MarksAfter(run[..|run| - 1]), run[|run| - 1])
  }

  /** Checkpoints stay in order, and are always within the capture last seen. */
  lemma {:induction false} MarksStayInOrder(run: seq<Observation>)
    requires |run| > 0 && Growing(run)
    ensures MarksInOrder(|run[|run| - 1].data|, MarksAfter(run))
  {
    hide Scan;
    var last := run[|run| - 1];
    if |run| > 1 {
      var earlier := run[..|run| - 1];
      MarksStayInOrder(earlier);
      assert run[|run| - 2].data <= last.data;
    }
  }

  lemma {:induction false} MarksPersist(run: seq<Observation>, k: nat)
    requires k <= |run|
    ensures var m := MarksAfter(run[..k]);
            && (m.before.Some? ==> MarksAfter(run).before == m.before)
            && (m.hidden.Some? ==> MarksAfter(run).hidden == m.hidden)
  {
    hide Scan, Summarize;
    if k < |run| {
      var earlier := run[..|run| - 1];
      MarksPersist(earlier, k);
      assert earlier[..k] == run[..k];
    } else {
      assert run[..k] == run;
    }
  }

  /** Once a checkpoint is set, every later successful observation of the growing capture reports the
      same number of events before it: the number in the capture as it was when the mark was made. */
  lemma BeforeCountNeverChanges(run: seq<Observation>, k: nat, last: Observation)
    requires k <= |run| && Growing(run + [last])
    requires MarksAfter(run[..k]).before.Some?
    requires ObserveOnce(last.data, MarksAfter(run), last.action).Ok?
    ensures var mark := MarksAfter(run[..k]).before.value;
            && 0 <= mark <= |last.data|
            && ObserveOnce(last.data, MarksAfter(run), last.action).value.1.beforeMinimize ==
                |Scan(last.data[..mark], 0)|
            && exists i :: 0 <= i < k && mark == |run[i].data| && last.data[..mark] == run[i].data
  {
    hide Scan;
    MarksPersist(run, k);
    var next := ObserveOnce(last.data, MarksAfter(run), last.action).value.0;
    assert next.before == MarksAfter(run).before;
    BeforeCountStable(last.data, next);
    var i := BeforeMarkOrigin(run[..k]);
    assert run[..k][i] == run[i];
    assert (run + [last])[i].data <= (run + [last])[|run|].data;
  }

  lemma {:induction false} BeforeMarkOrigin(run: seq<Observation>) returns (i: nat)
    requires MarksAfter(run).before.Some?
    ensures i < |run| && MarksAfter(run).before == Some(|run[i].data|)
  {
    hide Scan, Summarize;
    var earlier := run[..|run| - 1];
    if MarksAfter(earlier).before.Some? {
      i := BeforeMarkOrigin(earlier);
    } else {
      i := |run| - 1;
    }
  }
}
