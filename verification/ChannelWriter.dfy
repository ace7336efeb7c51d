/** The channel writer: input cut into chunks while window sizes are coalesced between them. */
module ChannelWriter {
  import opened Basics

  const INPUT_WRITE_CHUNK_BYTES: nat := 32 * 1024

  datatype Size = Size(columns: nat, rows: nat)

  /** How the wait for one chunk proceeds: sizes arrive (one received, the rest drained), the resize queue
      closes, or the send finishes. */
  datatype Poll =
    | Resized(first: Size, drained: seq<Size>, ok: bool)
    | ResizeClosed
    | SendDone(ok: bool)

  /** What the writer asks of the channel, and the answer. */
  datatype Action = Chunk(bytes: seq<byte>, ok: bool) | Window(size: Size, ok: bool)

  datatype Outcome = Sent | WriteFailed | StillSending

  /** The input in pieces of exactly 32 KiB, the last one shorter; a single empty piece when there is no input. */
  function ChunksOf(bytes: seq<byte>): (chunks: seq<seq<byte>>)
    ensures |chunks| >= 1
    decreases |bytes|
  {
    if |bytes| <= INPUT_WRITE_CHUNK_BYTES then [bytes]
    else [bytes[..INPUT_WRITE_CHUNK_BYTES]] + ChunksOf(bytes[INPUT_WRITE_CHUNK_BYTES..])
  }

  lemma {:induction false} ChunksCover(bytes: seq<byte>)
    ensures Concat(ChunksOf(bytes)) == bytes
    ensures forall i :: 0 <= i < |ChunksOf(bytes)| - 1 ==> |ChunksOf(bytes)[i]| == 32 * 1024
    ensures |ChunksOf(bytes)[|ChunksOf(bytes)| - 1]| <= 32 * 1024
    ensures bytes != [] ==> ChunksOf(bytes)[|ChunksOf(bytes)| - 1] != []
    decreases |bytes|
  {
    if |bytes| <= INPUT_WRITE_CHUNK_BYTES {
      ConcatSnoc([], bytes);
      assert [] + [bytes] == [bytes];
    } else {
      var first, rest := bytes[..INPUT_WRITE_CHUNK_BYTES], bytes[INPUT_WRITE_CHUNK_BYTES..];
      ChunksCover(rest);
      assert ChunksOf(bytes)[1..] == ChunksOf(rest);
    }
  }

  /** Chunk `i` of the input, and how many chunks there are. */
  lemma {:induction false} ChunkAt(bytes: seq<byte>, i: nat)
    requires bytes != [] && i * INPUT_WRITE_CHUNK_BYTES < |bytes|
    ensures i < |ChunksOf(bytes)|
    ensures var start := i * INPUT_WRITE_CHUNK_BYTES;
            var end := if start + INPUT_WRITE_CHUNK_BYTES < |bytes| then start + INPUT_WRITE_CHUNK_BYTES else |bytes|;
            ChunksOf(bytes)[i] == bytes[start..end] && (end == |bytes| <==> i == |ChunksOf(bytes)| - 1)
    decreases i
  {
    if i > 0 {
      var rest := bytes[INPUT_WRITE_CHUNK_BYTES..];
      var start := i * INPUT_WRITE_CHUNK_BYTES;
      assert (i - 1) * INPUT_WRITE_CHUNK_BYTES == start - INPUT_WRITE_CHUNK_BYTES;
      ChunkAt(rest, i - 1);
      var end := if start + INPUT_WRITE_CHUNK_BYTES < |bytes| then start + INPUT_WRITE_CHUNK_BYTES else |bytes|;
      SliceOfDrop(bytes, INPUT_WRITE_CHUNK_BYTES, start, end);
      assert ChunksOf(bytes)[i] == ChunksOf(rest)[i - 1];
    }
  }

  /** Where chunk `n` starts; the length of the input behind the last one. */
  function ChunkStart(bytes: seq<byte>, n: nat): nat {
    if n * INPUT_WRITE_CHUNK_BYTES < |bytes| then n * INPUT_WRITE_CHUNK_BYTES else |bytes|
  }

  lemma OneChunk(bytes: seq<byte>, n: nat)
    requires ChunkStart(bytes, n) < |bytes|
    ensures var offset := ChunkStart(bytes, n);
            var end := if offset + INPUT_WRITE_CHUNK_BYTES < |bytes| then offset + INPUT_WRITE_CHUNK_BYTES else |bytes|;
            && end == ChunkStart(bytes, n + 1)
            && n < |ChunksOf(bytes)| && ChunksOf(bytes)[n] == bytes[offset..end]
            && (end == |bytes| <==> n + 1 == |ChunksOf(bytes)|)
  {
    hide ChunksOf;
    ChunkAt(bytes, n);
  }

  /** The chunks among the actions, with their answers, and the sizes, with theirs. */
  function Chunks(actions: seq<Action>): seq<Action> {
    if |actions| == 0 then []
    else
      var last := actions[|actions| - 1];
      Chunks(actions[..|actions| - 1]) + if last.Chunk? then [last] else []
  }

  function Windows(actions: seq<Action>): seq<Action> {
    if |actions| == 0 then []
    else
      var last := actions[|actions| - 1];
      Windows(actions[..|actions| - 1]) + if last.Window? then [last] else []
  }

  lemma ActionAppend(actions: seq<Action>, a: Action)
    ensures Chunks(actions + [a]) == if a.Chunk? then Chunks(actions) + [a] else Chunks(actions)
    ensures Windows(actions + [a]) == if a.Window? then Windows(actions) + [a] else Windows(actions)
  {
    assert (actions + [a])[..|actions|] == actions;
  }

  /** The resize polls that take effect: those before the queue closes. */
  function Effective(polls: seq<Poll>): (r: seq<Poll>)
    ensures forall p :: p in r ==> p.Resized?
  {
    if |polls| == 0 then []
    else
      var last := polls[|polls| - 1];
      var earlier := polls[..|polls| - 1];
      Effective(earlier) + if last.Resized? && !Closed(earlier) then [last] else []
  }

  predicate Closed(polls: seq<Poll>) {
    exists k :: 0 <= k < |polls| && polls[k].ResizeClosed?
  }

  /** The answers to the sends, in order. */
  function Answers(polls: seq<Poll>): seq<bool> {
    if |polls| == 0 then []
    else
      var last := polls[|polls| - 1];
      Answers(polls[..|polls| - 1]) + if last.SendDone? then [last.ok] else []
  }

  lemma PollAppend(schedule: seq<Poll>, n: nat)
    requires n < |schedule|
    ensures Effective(schedule[..n + 1]) ==
            Effective(schedule[..n]) + if schedule[n].Resized? && !Closed(schedule[..n]) then [schedule[n]] else []
    ensures Closed(schedule[..n + 1]) <==> Closed(schedule[..n]) || schedule[n].ResizeClosed?
    ensures Answers(schedule[..n + 1]) ==
            Answers(schedule[..n]) + if schedule[n].SendDone? then [schedule[n].ok] else []
  {
    var longer, shorter := schedule[..n + 1], schedule[..n];
    assert longer[..n] == shorter;
    if Closed(shorter) {
      var k :| 0 <= k < n && shorter[k].ResizeClosed?;
      assert longer[k].ResizeClosed?;
    }
    if schedule[n].ResizeClosed? {
      assert longer[n].ResizeClosed?;
    }
  }

  function Latest(p: Poll): Size
    requires p.Resized?
  {
    if |p.drained| == 0 then p.first else p.drained[|p.drained| - 1]
  }

  /** Everything taken from the resize queue, in order. */
  function Dequeued(polls: seq<Poll>): seq<Size>
    requires forall p :: p in polls ==> p.Resized?
  {
    if |polls| == 0 then []
    else Dequeued(polls[..|polls| - 1]) + [polls[|polls| - 1].first] + polls[|polls| - 1].drained
  }

  function Sizes(windows: seq<Action>): seq<Size>
    requires forall w :: w in windows ==> w.Window?
  {
    if |windows| == 0 then []
    else Sizes(windows[..|windows| - 1]) + [windows[|windows| - 1].size]
  }

  /** One window change per effective poll, with its newest size. */
  predicate WindowsFollow(windows: seq<Action>, polls: seq<Poll>) {
    && |windows| == |polls|
    && forall k :: 0 <= k < |polls| ==> polls[k].Resized? && windows[k] == Window(Latest(polls[k]), polls[k].ok)
  }

  /** The sizes attempted are a subsequence of those queued, and end with the newest one taken. */
  lemma {:induction false} CoalescingKeepsNewest(windows: seq<Action>, polls: seq<Poll>)
    requires WindowsFollow(windows, polls)
    ensures forall w :: w in windows ==> w.Window?
    ensures forall p :: p in polls ==> p.Resized?
    ensures IsSubsequence(Sizes(windows), Dequeued(polls))
    ensures |polls| > 0 ==> |Sizes(windows)| > 0 && |Dequeued(polls)| > 0
                            && Sizes(windows)[|Sizes(windows)| - 1] == Dequeued(polls)[|Dequeued(polls)| - 1]
  {
    if |polls| == 0 {
      assert Embeds(Sizes(windows), Dequeued(polls), []);
    } else {
      var n := |polls| - 1;
      CoalescingKeepsNewest(windows[..n], polls[..n]);
      var p, before := polls[n], Dequeued(polls[..n]);
      var taken := [p.first] + p.drained;
      SubsequenceGrows(Sizes(windows[..n]), before, taken, Latest(p));
      assert Dequeued(polls) == before + taken;
    }
  }

  predicate AnsweredBy(chunks: seq<Action>, answers: seq<bool>) {
    |chunks| == |answers| && forall i :: 0 <= i < |chunks| ==> chunks[i].Chunk? && chunks[i].ok == answers[i]
  }

  /** What one call of `send_scheduled_input` does: chunks in order, all accepted but possibly the last one
      offered, and one window change per batch of sizes. */
  predicate SentAsScheduled(bytes: seq<byte>, actions: seq<Action>, outcome: Outcome, polls: seq<Poll>) {
    var chunks := Chunks(actions);
    && |chunks| <= |ChunksOf(bytes)|
    && (forall i :: 0 <= i < |chunks| ==>
          chunks[i] == Chunk(ChunksOf(bytes)[i], !(outcome == WriteFailed && i == |chunks| - 1)))
    && (outcome == Sent ==> |chunks| == |ChunksOf(bytes)|)
    && (outcome == WriteFailed ==> |chunks| > 0)
    && (outcome == StillSending ==> |chunks| < |ChunksOf(bytes)|)
    && AnsweredBy(chunks, Answers(polls))
    && WindowsFollow(Windows(actions), Effective(polls))
  }

  /** Bytes the channel took. */
  function Accepted(chunks: seq<Action>): seq<byte> {
    if |chunks| == 0 then []
    else
      var last := chunks[|chunks| - 1];
      Accepted(chunks[..|chunks| - 1]) + if last.Chunk? && last.ok then last.bytes else []
  }

  lemma {:induction false} AcceptedPrefix(bytes: seq<byte>, chunks: seq<Action>)
    requires |chunks| <= |ChunksOf(bytes)|
    requires forall i :: 0 <= i < |chunks| ==> chunks[i] == Chunk(ChunksOf(bytes)[i], true)
    ensures Accepted(chunks) == Concat(ChunksOf(bytes)[..|chunks|])
  {
    if |chunks| > 0 {
      var n := |chunks| - 1;
      AcceptedPrefix(bytes, chunks[..n]);
      assert ChunksOf(bytes)[..n + 1] == ChunksOf(bytes)[..n] + [ChunksOf(bytes)[n]];
      ConcatSnoc(ChunksOf(bytes)[..n], ChunksOf(bytes)[n]);
    }
  }

  lemma {:induction false} FullChunks(chunks: seq<seq<byte>>)
    requires forall i :: 0 <= i < |chunks| ==> |chunks[i]| == INPUT_WRITE_CHUNK_BYTES
    ensures |Concat(chunks)| == |chunks| * INPUT_WRITE_CHUNK_BYTES
  {
    if |chunks| > 0 {
      FullChunks(chunks[1..]);
    }
  }

  /** Success means the whole input went out in order; a write error, or a run cut short, leaves exactly the
      full chunks before it. */
  lemma AcceptedBytes(bytes: seq<byte>, actions: seq<Action>, outcome: Outcome, polls: seq<Poll>)
    requires SentAsScheduled(bytes, actions, outcome, polls)
    ensures outcome == Sent ==> Accepted(Chunks(actions)) == bytes
    ensures outcome != Sent ==>
      var accepted := Accepted(Chunks(actions)); accepted <= bytes && |accepted| % INPUT_WRITE_CHUNK_BYTES == 0
  {
    hide Chunks, Accepted, ChunksOf, Concat, WindowsFollow, AnsweredBy;
    var chunks, all := Chunks(actions), ChunksOf(bytes);
    ChunksCover(bytes);
    var n := if outcome == WriteFailed then |chunks| - 1 else |chunks|;
    AcceptedPrefix(bytes, chunks[..n]);
    assert all == all[..n] + all[n..];
    ConcatAppend(all[..n], all[n..]);
    if outcome == Sent {
      assert chunks[..n] == chunks && all[..n] == all;
    } else {
      FullChunks(all[..n]);
      MultipleOfChunk(n);
      if outcome == WriteFailed {
        RefusedLast(chunks);
      } else {
        assert chunks[..n] == chunks;
      }
    }
  }

  lemma RefusedLast(chunks: seq<Action>)
    requires |chunks| > 0 && chunks[|chunks| - 1].Chunk? && !chunks[|chunks| - 1].ok
    ensures Accepted(chunks) == Accepted(chunks[..|chunks| - 1])
  {
  }

  lemma MultipleOfChunk(n: nat)
    ensures n * INPUT_WRITE_CHUNK_BYTES % INPUT_WRITE_CHUNK_BYTES == 0
  {
  }

  /** The chunks so far were accepted, and all answers and window changes are those of the polls. */
  predicate Sending(bytes: seq<byte>, actions: seq<Action>, polls: seq<Poll>) {
    var chunks := Chunks(actions);
    && |chunks| <= |ChunksOf(bytes)|
    && (forall i :: 0 <= i < |chunks| ==> chunks[i] == Chunk(ChunksOf(bytes)[i], true))
    && AnsweredBy(chunks, Answers(polls))
    && WindowsFollow(Windows(actions), Effective(polls))
  }

  /** One more chunk and its answer; `waited` are the actions once the answer has come. */
  lemma ChunkSent(bytes: seq<byte>, actions: seq<Action>, earlier: seq<Poll>, waited: seq<Action>, polls: seq<Poll>,
                  ok: bool)
    requires Sending(bytes, actions, earlier) && |Chunks(actions)| < |ChunksOf(bytes)|
    requires Chunks(waited) == Chunks(actions) && Answers(polls) == Answers(earlier) + [ok]
    requires WindowsFollow(Windows(waited), Effective(polls))
    ensures var longer := waited + [Chunk(ChunksOf(bytes)[|Chunks(actions)|], ok)];
            && |Chunks(longer)| == |Chunks(actions)| + 1
            && if ok then Sending(bytes, longer, polls) else SentAsScheduled(bytes, longer, WriteFailed, polls)
  {
    hide ChunksOf, Chunks, Windows, Effective, Answers;
    ActionAppend(waited, Chunk(ChunksOf(bytes)[|Chunks(actions)|], ok));
  }

  /** The actions once a wait is cut short, or once every chunk is sent. */
  lemma SendingStops(bytes: seq<byte>, actions: seq<Action>, polls: seq<Poll>)
    requires Sending(bytes, actions, polls)
    ensures SentAsScheduled(bytes, actions, if |Chunks(actions)| < |ChunksOf(bytes)| then StillSending else Sent, polls)
  {
    hide ChunksOf, Chunks, Windows, Effective, Answers;
  }

  /** Sends one input. `schedule` is what each wait yields; when it runs out, the call is still in progress. */
  method SendScheduledInput(bytes: seq<byte>, schedule: seq<Poll>)
    returns (outcome: Outcome, actions: seq<Action>, used: nat)
    ensures used <= |schedule| && SentAsScheduled(bytes, actions, outcome, schedule[..used])
    ensures outcome == StillSending ==> used == if bytes == [] then 0 else |schedule|
    ensures bytes == [] ==> (outcome == StillSending <==> |schedule| == 0 || !schedule[0].SendDone?)
  {
    hide ChunksOf, Chunks, Windows, Effective, Closed, Answers, ChunkStart, Sending, SentAsScheduled;
    actions, used := [], 0;
    SendingStarts(bytes, schedule);
    if bytes == [] {
      OnlyChunk();
      if |schedule| > 0 && schedule[0].SendDone? {
        PollAppend(schedule, 0);
        ChunkSent([], [], schedule[..0], [], schedule[..1], schedule[0].ok);
        actions := actions + [Chunk([], schedule[0].ok)];
        if schedule[0].ok {
          SendingStops([], actions, schedule[..1]);
        }
        return if schedule[0].ok then Sent else WriteFailed, actions, 1;
      }
      SendingStops([], [], schedule[..0]);
      return StillSending, [], 0;
    }
    var offset := 0;
    var resizeOpen := true;
    ghost var n := 0;
    while offset < |bytes|
      invariant offset == ChunkStart(bytes, n) <= |bytes|
      invariant n == |Chunks(actions)| && (offset == |bytes| ==> n == |ChunksOf(bytes)|)
      invariant used <= |schedule| && resizeOpen == !Closed(schedule[..used])
      invariant Sending(bytes, actions, schedule[..used])
    {
      OneChunk(bytes, n);
      var end := if offset + INPUT_WRITE_CHUNK_BYTES < |bytes| then offset + INPUT_WRITE_CHUNK_BYTES else |bytes|;
      var sending := bytes[offset..end];
      ghost var before, from := actions, used;
      SendingWaits(bytes, actions, schedule[..used]);
      var result;
      result, actions, used, resizeOpen := AwaitSend(schedule, actions, used, resizeOpen);
      if result == None {
        WaitCutShort(bytes, before, schedule[..from], actions, schedule[..used]);
        SendingStops(bytes, actions, schedule[..used]);
        return StillSending, actions, used;
      }
      ChunkSent(bytes, before, schedule[..from], actions, schedule[..used], result.value);
      actions := actions + [Chunk(sending, result.value)];
      if !result.value {
        return WriteFailed, actions, used;
      }
      offset := end;
      n := n + 1;
    }
    SendingStops(bytes, actions, schedule[..used]);
    outcome := Sent;
  }

  lemma SendingStarts(bytes: seq<byte>, schedule: seq<Poll>)
    ensures Sending(bytes, [], schedule[..0]) && Chunks([]) == [] && !Closed(schedule[..0])
    ensures ChunkStart(bytes, 0) == 0
    ensures WindowsFollow(Windows([]), Effective(schedule[..0])) && Effective(schedule[..0]) == []
    ensures Answers(schedule[..0]) == []
  {
  }

  lemma SendingWaits(bytes: seq<byte>, actions: seq<Action>, polls: seq<Poll>)
    requires Sending(bytes, actions, polls)
    ensures WindowsFollow(Windows(actions), Effective(polls))
  {
  }

  /** Window changes alone leave the chunks as they were. */
  lemma WaitCutShort(bytes: seq<byte>, actions: seq<Action>, earlier: seq<Poll>, waited: seq<Action>, polls: seq<Poll>)
    requires Sending(bytes, actions, earlier)
    requires Chunks(waited) == Chunks(actions) && Answers(polls) == Answers(earlier)
    requires WindowsFollow(Windows(waited), Effective(polls))
    ensures Sending(bytes, waited, polls)
  {
    hide ChunksOf, Chunks, Windows, Effective, Answers;
  }

  /** The inner loop: handles sizes until the chunk's send finishes. */
  method AwaitSend(schedule: seq<Poll>, before: seq<Action>, from: nat, open: bool)
    returns (result: Option<bool>, actions: seq<Action>, used: nat, resizeOpen: bool)
    requires from <= |schedule| && open == !Closed(schedule[..from])
    requires WindowsFollow(Windows(before), Effective(schedule[..from]))
    ensures from <= used <= |schedule| && resizeOpen == !Closed(schedule[..used])
    ensures Chunks(actions) == Chunks(before)
    ensures WindowsFollow(Windows(actions), Effective(schedule[..used]))
    ensures Answers(schedule[..used]) == Answers(schedule[..from]) + if result.Some? then [result.value] else []
    ensures result == None ==> used == |schedule|
  {
    hide Chunks, Windows, Effective, Closed, Answers;
    result, actions, used, resizeOpen := None, before, from, open;
    while used < |schedule| && result == None
      invariant from <= used <= |schedule| && resizeOpen == !Closed(schedule[..used])
      invariant Chunks(actions) == Chunks(before)
      invariant WindowsFollow(Windows(actions), Effective(schedule[..used]))
      invariant Answers(schedule[..used]) == Answers(schedule[..from]) + if result.Some? then [result.value] else []
      decreases |schedule| - used
    {
      PollAppend(schedule, used);
      match schedule[used] {
        case Resized(first, drained, ok) =>
          if resizeOpen {
            var latest := first;
            for k := 0 to |drained|
              invariant latest == if k == 0 then first else drained[k - 1]
            {
              latest := drained[k];
            }
            ActionAppend(actions, Window(latest, ok));
            actions := actions + [Window(latest, ok)];
          }
        case ResizeClosed => resizeOpen := false;
        case SendDone(ok) => result := Some(ok);
      }
      used := used + 1;
    }
  }

  lemma OnlyChunk()
    ensures ChunksOf([]) == [[]]
  {
  }

  // ---- The writer task -----------------------------------------------------

  /** The branch the writer's own `select!` takes. */
  datatype Job =
    | Input(bytes: seq<byte>, schedule: seq<Poll>)
    | Resize(size: Size, ok: bool)
    | InputClosed
    | ResizesClosed

  /** What became of one job. */
  datatype Done =
    | InputDone(bytes: seq<byte>, outcome: Outcome, actions: seq<Action>, polls: seq<Poll>)
    | ResizeDone(window: Action)

  predicate DoneRight(job: Job, done: Done) {
    match job
    case Input(bytes, schedule) =>
      && done.InputDone? && done.bytes == bytes && done.polls <= schedule
      && SentAsScheduled(bytes, done.actions, done.outcome, done.polls)
    case Resize(size, ok) => done == ResizeDone(Window(size, ok))
    case _ => false
  }

  function Offered(dones: seq<Done>): seq<Action> {
    if |dones| == 0 then []
    else
      Offered(dones[..|dones| - 1]) +
      match dones[|dones| - 1] case InputDone(_, _, actions, _) => Chunks(actions) case _ => []
  }

  function Inputs(jobs: seq<Job>): seq<seq<byte>> {
    if |jobs| == 0 then []
    else Inputs(jobs[..|jobs| - 1]) + match jobs[|jobs| - 1] case Input(bytes, _) => [bytes] case _ => []
  }

  /** Takes jobs until a queue closes; a failed write is reported and the next input still goes out. */
  method RunChannelWriterCore(jobs: seq<Job>) returns (dones: seq<Done>, writeErrors: nat, resizeErrors: nat)
    ensures |dones| <= |jobs| && forall i :: 0 <= i < |dones| ==> DoneRight(jobs[i], dones[i])
    ensures |dones| < |jobs| ==>
      || jobs[|dones|].InputClosed? || jobs[|dones|].ResizesClosed?
      || (|dones| > 0 && dones[|dones| - 1].InputDone? && dones[|dones| - 1].outcome == StillSending)
    ensures forall i :: 0 <= i < |dones| - 1 ==> dones[i].InputDone? ==> dones[i].outcome != StillSending
    ensures writeErrors == WriteErrors(dones) && resizeErrors == ResizeErrors(dones)
  {
    hide SentAsScheduled;
    dones, writeErrors, resizeErrors := [], 0, 0;
    for at := 0 to |jobs|
      invariant |dones| == at && forall i :: 0 <= i < at ==> DoneRight(jobs[i], dones[i])
      invariant forall i :: 0 <= i < at ==> dones[i].InputDone? ==> dones[i].outcome != StillSending
      invariant writeErrors == WriteErrors(dones) && resizeErrors == ResizeErrors(dones)
    {
      match jobs[at] {
        case Input(bytes, schedule) =>
          var outcome, actions, used := SendScheduledInput(bytes, schedule);
          var done := InputDone(bytes, outcome, actions, schedule[..used]);
          ErrorsAppend(dones, done);
          dones := dones + [done];
          resizeErrors := resizeErrors + Refused(Windows(actions));
          if outcome == StillSending {
            return;
          }
          if outcome == WriteFailed {
            writeErrors := writeErrors + 1;
          }
        case Resize(size, ok) =>
          ErrorsAppend(dones, ResizeDone(Window(size, ok)));
          dones := dones + [ResizeDone(Window(size, ok))];
          if !ok {
            resizeErrors := resizeErrors + 1;
          }
        case InputClosed => return;
        case ResizesClosed => return;
      }
    }
  }

  function Refused(actions: seq<Action>): nat {
    if |actions| == 0 then 0 else Refused(actions[..|actions| - 1]) + if actions[|actions| - 1].ok then 0 else 1
  }

  function WriteErrors(dones: seq<Done>): nat {
    if |dones| == 0 then 0
    else
      var last := dones[|dones| - 1];
      WriteErrors(dones[..|dones| - 1]) + if last.InputDone? && last.outcome == WriteFailed then 1 else 0
  }

  function ResizeErrors(dones: seq<Done>): nat {
    if |dones| == 0 then 0
    else
      var last := dones[|dones| - 1];
      ResizeErrors(dones[..|dones| - 1]) +
      match last
      case InputDone(_, _, actions, _) => Refused(Windows(actions))
      case ResizeDone(w) => if w.ok then 0 else 1
  }

  lemma ErrorsAppend(dones: seq<Done>, d: Done)
    ensures WriteErrors(dones + [d]) == WriteErrors(dones) + if d.InputDone? && d.outcome == WriteFailed then 1 else 0
    ensures ResizeErrors(dones + [d]) == ResizeErrors(dones) +
      match d case InputDone(_, _, actions, _) => Refused(Windows(actions)) case ResizeDone(w) => if w.ok then 0 else 1
  {
    assert (dones + [d])[..|dones|] == dones;
  }

  /** How many chunks of each input were offered. */
  function ChunkCounts(dones: seq<Done>): seq<nat> {
    if |dones| == 0 then []
    else
      ChunkCounts(dones[..|dones| - 1]) +
      match dones[|dones| - 1] case InputDone(_, _, actions, _) => [|Chunks(actions)|] case _ => []
  }

  /** The first `counts[i]` chunks of each input, one input after the other. */
  function Prefixes(inputs: seq<seq<byte>>, counts: seq<nat>): seq<seq<byte>>
    requires |inputs| == |counts| && forall i :: 0 <= i < |inputs| ==> counts[i] <= |ChunksOf(inputs[i])|
  {
    if |inputs| == 0 then []
    else
      var n := |inputs| - 1;
      Prefixes(inputs[..n], counts[..n]) + ChunksOf(inputs[n])[..counts[n]]
  }

  function Payloads(chunks: seq<Action>): seq<seq<byte>> {
    if |chunks| == 0 then []
    else
      var last := chunks[|chunks| - 1];
      Payloads(chunks[..|chunks| - 1]) + [if last.Chunk? then last.bytes else []]
  }

  lemma {:induction false} PayloadsAppend(a: seq<Action>, b: seq<Action>)
    ensures Payloads(a + b) == Payloads(a) + Payloads(b)
  {
    if |b| == 0 {
      assert a + b == a;
    } else {
      var n := |b| - 1;
      assert (a + b)[..|a| + n] == a + b[..n];
      PayloadsAppend(a, b[..n]);
    }
  }

  lemma {:induction false} PayloadsOfChunks(chunks: seq<Action>, all: seq<seq<byte>>)
    requires |chunks| <= |all| && forall i :: 0 <= i < |chunks| ==> chunks[i].Chunk? && chunks[i].bytes == all[i]
    ensures Payloads(chunks) == all[..|chunks|]
  {
    if |chunks| > 0 {
      var n := |chunks| - 1;
      PayloadsOfChunks(chunks[..n], all);
      assert all[..n + 1] == all[..n] + [all[n]];
    }
  }

  /** First in, first out: the chunks offered over a whole run are the leading chunks of each input, input
      by input in queue order. */
  lemma {:induction false} FirstInFirstOut(jobs: seq<Job>, dones: seq<Done>)
    requires |dones| == |jobs| && forall i :: 0 <= i < |jobs| ==> DoneRight(jobs[i], dones[i])
    ensures |Inputs(jobs)| == |ChunkCounts(dones)|
    ensures forall i :: 0 <= i < |Inputs(jobs)| ==> ChunkCounts(dones)[i] <= |ChunksOf(Inputs(jobs)[i])|
    ensures Payloads(Offered(dones)) == Prefixes(Inputs(jobs), ChunkCounts(dones))
  {
    hide ChunksOf, Chunks, WindowsFollow, AnsweredBy;
    if |jobs| > 0 {
      var n := |jobs| - 1;
      FirstInFirstOut(jobs[..n], dones[..n]);
      match jobs[n] {
        case Input(bytes, _) =>
          var chunks := Chunks(dones[n].actions);
          PayloadsAppend(Offered(dones[..n]), chunks);
          PayloadsOfChunks(chunks, ChunksOf(bytes));
          var inputs, counts := Inputs(jobs), ChunkCounts(dones);
          assert inputs[..|inputs| - 1] == Inputs(jobs[..n]);
          assert counts[..|counts| - 1] == ChunkCounts(dones[..n]);
        case Resize(_, _) =>
          assert Offered(dones) == Offered(dones[..n]);
          assert Inputs(jobs) == Inputs(jobs[..n]) && ChunkCounts(dones) == ChunkCounts(dones[..n]);
      }
    }
  }
}
