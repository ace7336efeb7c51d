/** The connected session's output loop: buffering, retry, pause and the final delivery. */
module OutputDelivery {
  import opened Basics

  const READ_LIMIT: nat := 512 * 1024
  const FLUSH_THRESHOLD: nat := 64 * 1024
  const IMMEDIATE_LIMIT: nat := 256
  const FINAL_DELIVERY_RETRY_ATTEMPTS: nat := 128

  class OutputDeliveryMetrics {
    var received: nat
    var queued: nat
    var retries: nat
    var finalFailures: nat
    var finalFailedBytes: nat
    var batches: nat

    constructor ()
      ensures received == queued == retries == finalFailures == finalFailedBytes == batches == 0
    {
      received, queued, retries, finalFailures, finalFailedBytes, batches := 0, 0, 0, 0, 0, 0;
    }

    method RecordCallbackAttempt(ok: bool, length: nat) returns (sent: bool)
      modifies this`queued, this`batches, this`retries
      ensures sent == ok
      ensures ok ==> queued == old(queued) + length && batches == old(batches) + 1 && retries == old(retries)
      ensures !ok ==> queued == old(queued) && batches == old(batches) && retries == old(retries) + 1
    {
      if ok {
        queued := queued + length;
        batches := batches + 1;
        return true;
      }
      retries := retries + 1;
      return false;
    }

    method RecordFinalDeliveryFailure(length: nat)
      modifies this`finalFailures, this`finalFailedBytes
      ensures finalFailures == old(finalFailures) + 1 && finalFailedBytes == old(finalFailedBytes) + length
    {
      finalFailures := finalFailures + 1;
      finalFailedBytes := finalFailedBytes + length;
    }
  }

  predicate ShouldFlushImmediately(pendingEmpty: bool, length: nat) {
    pendingEmpty && 0 < length <= IMMEDIATE_LIMIT
  }

  datatype Message = Data(bytes: seq<byte>) | ExitStatus(status: int) | Eof | Close | Ended | Other

  /** The branch `select!` takes. The callback's answer comes with the branches that may call it. */
  datatype Choice =
    | OutputTick(ok: bool)
    | PauseChanged(value: Option<bool>)
    | Incoming(message: Message, ok: bool)
    | Stopped

  /** The pause watch after some choices: the last value sent, and `false` for good once the sender is gone. */
  datatype Watch = Watch(open: bool, paused: bool)

  function WatchAfter(initial: bool, choices: seq<Choice>): Watch {
    if |choices| == 0 then Watch(true, initial)
    else
      var w := WatchAfter(initial, choices[..|choices| - 1]);
      match choices[|choices| - 1]
      case PauseChanged(v) => if !w.open then w else if v.Some? then Watch(true, v.value) else Watch(false, false)
      case _ => w
  }

  datatype Attempt = Attempt(batch: seq<byte>, ok: bool)

  function Delivered(attempts: seq<Attempt>): seq<byte> {
    if |attempts| == 0 then []
    else
      var last := attempts[|attempts| - 1];
      Delivered(attempts[..|attempts| - 1]) + if last.ok then last.batch else []
  }

  function Successes(attempts: seq<Attempt>): nat {
    if |attempts| == 0 then 0
    else Successes(attempts[..|attempts| - 1]) + if attempts[|attempts| - 1].ok then 1 else 0
  }

  lemma AttemptAppend(attempts: seq<Attempt>, a: Attempt)
    ensures Delivered(attempts + [a]) == Delivered(attempts) + if a.ok then a.batch else []
    ensures Successes(attempts + [a]) == Successes(attempts) + if a.ok then 1 else 0
    ensures Successes(attempts) <= |attempts|
  {
    assert (attempts + [a])[..|attempts|] == attempts;
    SuccessesBounded(attempts);
  }

  lemma {:induction false} SuccessesBounded(attempts: seq<Attempt>)
    ensures Successes(attempts) <= |attempts|
  {
    if |attempts| > 0 {
      SuccessesBounded(attempts[..|attempts| - 1]);
    }
  }

  /** Every batch is non-empty and offers the received bytes from the first one not yet delivered. */
  ghost predicate InOrder(attempts: seq<Attempt>, received: seq<byte>) {
    forall i :: 0 <= i < |attempts| ==>
      attempts[i].batch != [] && Delivered(attempts[..i]) + attempts[i].batch <= received
  }

  lemma InOrderAppend(attempts: seq<Attempt>, received: seq<byte>, more: seq<byte>, a: Attempt)
    requires InOrder(attempts, received)
    requires a.batch != [] && Delivered(attempts) + a.batch <= received + more
    ensures InOrder(attempts + [a], received + more)
  {
    var longer := attempts + [a];
    forall i | 0 <= i < |longer|
      ensures longer[i].batch != [] && Delivered(longer[..i]) + longer[i].batch <= received + more
    {
      assert longer[..i] == if i < |attempts| then attempts[..i] else attempts;
    }
  }

  lemma InOrderGrows(attempts: seq<Attempt>, received: seq<byte>, more: seq<byte>)
    requires InOrder(attempts, received)
    ensures InOrder(attempts, received + more)
  {
  }

  /** One visit to the branches that may call the transport callback. */
  datatype Turn =
    | Tick(pending: nat, attempted: bool, ok: bool)
    | Read(index: nat, data: seq<byte>, pending: nat, attempted: bool, ok: bool)

  function BytesRead(turns: seq<Turn>): seq<byte> {
    if |turns| == 0 then []
    else
      var last := turns[|turns| - 1];
      BytesRead(turns[..|turns| - 1]) + if last.Read? then last.data else []
  }

  /** What a turn offers the callback, and the callback's answer. */
  datatype Batch = Batch(size: nat, ok: bool)

  function Batches(turns: seq<Turn>): seq<Batch> {
    if |turns| == 0 then []
    else
      var last := turns[|turns| - 1];
      Batches(turns[..|turns| - 1])
      + if last.attempted then [Batch(last.pending + if last.Read? then |last.data| else 0, last.ok)] else []
  }

  /** The first attempts are those batches, with those answers. */
  ghost predicate Answered(attempts: seq<Attempt>, batches: seq<Batch>) {
    && |batches| <= |attempts|
    && forall k :: 0 <= k < |batches| ==> attempts[k].ok == batches[k].ok && |attempts[k].batch| == batches[k].size
  }

  /** Length of the longest message read. */
  function Longest(turns: seq<Turn>): nat {
    if |turns| == 0 then 0
    else
      var last, rest := turns[|turns| - 1], Longest(turns[..|turns| - 1]);
      if last.Read? && |last.data| > rest then |last.data| else rest
  }

  /** The longest message is one that was read, and none is longer. */
  lemma {:induction false} LongestMeans(turns: seq<Turn>)
    ensures forall t :: t in turns && t.Read? ==> |t.data| <= Longest(turns)
    ensures Longest(turns) > 0 ==> exists t :: t in turns && t.Read? && |t.data| == Longest(turns)
  {
    if |turns| > 0 {
      LongestMeans(turns[..|turns| - 1]);
      assert turns == turns[..|turns| - 1] + [turns[|turns| - 1]];
      assert turns[|turns| - 1] in turns;
    }
  }

  lemma TurnAppend(turns: seq<Turn>, t: Turn)
    ensures BytesRead(turns + [t]) == BytesRead(turns) + if t.Read? then t.data else []
    ensures Batches(turns + [t]) ==
            Batches(turns) + if t.attempted then [Batch(t.pending + if t.Read? then |t.data| else 0, t.ok)] else []
    ensures Longest(turns + [t]) == if t.Read? && |t.data| > Longest(turns) then |t.data| else Longest(turns)
  {
    assert (turns + [t])[..|turns|] == turns;
  }

  /** When a turn calls the callback: a tick when anything is pending, a read when the message is small and
      nothing was pending, or when enough has gathered. */
  predicate Policy(t: Turn) {
    match t
    case Tick(pending, attempted, _) => attempted <==> pending > 0
    case Read(_, data, pending, attempted, _) =>
      attempted <==> Flushes(pending, |data|)
  }

  predicate Flushes(pending: nat, length: nat) {
    ShouldFlushImmediately(pending == 0, length) || pending + length >= FLUSH_THRESHOLD
  }

  /** The channel is read only unpaused and below the limit. */
  predicate MayRead(initialPause: bool, choices: seq<Choice>, i: nat, pending: nat)
    requires i < |choices|
  {
    !WatchAfter(initialPause, choices[..i]).paused && pending < READ_LIMIT
  }

  /** The turns a sequence of branches amounts to, given the number of bytes pending before each. */
  function TurnsOf(initialPause: bool, choices: seq<Choice>, pendings: seq<nat>): seq<Turn>
    requires |pendings| == |choices|
  {
    if |choices| == 0 then []
    else
      var i := |choices| - 1;
      TurnsOf(initialPause, choices[..i], pendings[..i]) + TurnOf(initialPause, choices, i, pendings[i])
  }

  function TurnOf(initialPause: bool, choices: seq<Choice>, i: nat, pending: nat): seq<Turn>
    requires i < |choices|
  {
    match choices[i]
    case OutputTick(ok) => [Tick(pending, pending > 0, ok)]
    case Incoming(Data(data), ok) =>
      if MayRead(initialPause, choices, i, pending) then [Read(i, data, pending, Flushes(pending, |data|), ok)] else []
    case _ => []
  }

  predicate Stops(initialPause: bool, choices: seq<Choice>, i: nat, pending: nat)
    requires i < |choices|
  {
    || choices[i].Stopped?
    || (&& choices[i].Incoming? && MayRead(initialPause, choices, i, pending)
        && (choices[i].message.ExitStatus? || choices[i].message.Close? || choices[i].message.Ended?))
  }

  /** Before choice `i`, `pendings[i]` bytes had been received and not yet delivered. */
  ghost predicate PendingIs(initialPause: bool, choices: seq<Choice>, pendings: seq<nat>, attempts: seq<Attempt>,
                            i: nat)
    requires i < |pendings| <= |choices|
  {
    var turns := TurnsOf(initialPause, choices[..i], pendings[..i]);
    var offered := |Batches(turns)|;
    offered <= |attempts| && |BytesRead(turns)| == |Delivered(attempts[..offered])| + pendings[i]
  }

  datatype Report = Report(
    exitCode: int,
    received: seq<byte>,
    lost: seq<byte>,
    pendings: seq<nat>,
    turns: seq<Turn>,
    attempts: seq<Attempt>,
    finalAttempts: nat,
    peak: nat,
    longest: nat,
    queued: nat,
    retries: nat,
    finalFailures: nat,
    finalFailedBytes: nat,
    batches: nat)

  /** What any run leaves behind, whatever the order of branches and the callback's answers. */
  ghost predicate Accounted(r: Report) {
    // Nothing is dropped, duplicated or reordered: what was delivered is a prefix, what was lost the rest.
    && r.received == BytesRead(r.turns)
    && Delivered(r.attempts) + r.lost == r.received
    && InOrder(r.attempts, r.received)
    // The counters say exactly that.
    && r.queued == |Delivered(r.attempts)|
    && r.finalFailedBytes == |r.lost|
    && |r.received| == r.queued + r.finalFailedBytes
    && r.batches == Successes(r.attempts) && r.batches + r.retries == |r.attempts|
    && r.finalFailures == (if r.lost == [] then 0 else 1)
    && |r.attempts| == |Batches(r.turns)| + r.finalAttempts
    // Bytes are lost only after the whole last batch was refused every time.
    && (r.lost != [] ==> r.finalAttempts == FINAL_DELIVERY_RETRY_ATTEMPTS)
    && r.finalAttempts <= FINAL_DELIVERY_RETRY_ATTEMPTS && r.finalAttempts <= |r.attempts|
    && forall i :: |r.attempts| - r.finalAttempts <= i < |r.attempts| ==>
         (r.attempts[i].ok <==> r.lost == [] && i == |r.attempts| - 1)
  }

  /** The loop's local state, with a log of its turns and of the batches it offered. */
  class OutputLoop {
    const metrics: OutputDeliveryMetrics
    var pending: seq<byte>
    var paused: bool
    var pauseOpen: bool
    var received: seq<byte>
    var turns: seq<Turn>
    var attempts: seq<Attempt>
    var peak: nat
    var longest: nat

    ghost predicate Counted()
      reads this, metrics
    {
      && received == Delivered(attempts) + pending && InOrder(attempts, received)
      && metrics.received == |received| && metrics.queued == |Delivered(attempts)|
      && metrics.batches == Successes(attempts) && metrics.batches + metrics.retries == |attempts|
      && metrics.finalFailures == 0 && metrics.finalFailedBytes == 0
    }

    ghost predicate Valid()
      reads this, metrics
    {
      && Counted()
      && received == BytesRead(turns) && |Batches(turns)| == |attempts| && Answered(attempts, Batches(turns))
      && |pending| <= peak && (peak < READ_LIMIT + longest || peak == 0)
      && (forall i :: 0 <= i < |turns| ==> Policy(turns[i]) && turns[i].pending <= peak)
      && longest == Longest(turns)
    }

    constructor (initialPause: bool)
      ensures Valid() && fresh(metrics) && paused == initialPause && pauseOpen && turns == []
    {
      metrics := new OutputDeliveryMetrics();
      pending, paused, pauseOpen := [], initialPause, true;
      received, turns, attempts := [], [], [];
      peak, longest := 0, 0;
    }

    /** Takes the pending bytes, offers them as one batch, and puts them back when the callback refuses. */
    method Offer(ok: bool)
      requires Counted() && pending != []
      modifies this`pending, this`attempts, metrics
      ensures Counted() && attempts == old(attempts) + [Attempt(old(pending), ok)]
      ensures pending == if ok then [] else old(pending)
    {
      hide Delivered, Successes, InOrder;
      var output := pending;
      pending := [];
      AttemptAppend(attempts, Attempt(output, ok));
      InOrderAppend(attempts, received, [], Attempt(output, ok));
      assert received + [] == received;
      attempts := attempts + [Attempt(output, ok)];
      var sent := metrics.RecordCallbackAttempt(ok, |output|);
      if !sent {
        pending := output;
      }
    }

    method OnTick(ok: bool)
      requires Valid()
      modifies this`pending, this`attempts, this`turns, metrics
      ensures Valid() && turns == old(turns) + [Tick(|old(pending)|, old(pending) != [], ok)]
      ensures old(attempts) <= attempts && peak == old(peak)
    {
      hide Delivered, Successes, BytesRead, Batches, InOrder, Longest;
      var turn := Tick(|pending|, pending != [], ok);
      TurnAppend(turns, turn);
      if pending != [] {
        Offer(ok);
      }
      AddTurn(turn);
    }

    method AddTurn(turn: Turn)
      requires Policy(turn) && turn.pending <= peak
      requires forall i :: 0 <= i < |turns| ==> Policy(turns[i]) && turns[i].pending <= peak
      modifies this`turns
      ensures turns == old(turns) + [turn]
      ensures forall i :: 0 <= i < |turns| ==> Policy(turns[i]) && turns[i].pending <= peak
      ensures forall i :: 0 <= i < |old(turns)| ==> turns[i] == old(turns)[i]
      ensures turns[|old(turns)|] == turn
    {
      turns := turns + [turn];
    }

    method OnPauseChanged(value: Option<bool>)
      modifies this`paused, this`pauseOpen
      ensures pauseOpen == (old(pauseOpen) && value.Some?)
      ensures paused == if old(pauseOpen) then value.Some? && value.value else old(paused)
    {
      if pauseOpen {
        pauseOpen := value.Some?;
        paused := value.Some? && value.value;
      }
    }

    /** A data message read from the channel at choice `index`. */
    method OnData(index: nat, data: seq<byte>, ok: bool)
      requires Valid() && !paused && |pending| < READ_LIMIT
      modifies this`pending, this`received, this`attempts, this`turns, this`peak, this`longest, metrics
      ensures Valid()
      ensures turns == old(turns) + [Read(index, data, |old(pending)|, Flushes(|old(pending)|, |data|), ok)]
      ensures old(attempts) <= attempts && peak >= old(peak)
    {
      hide Delivered, Successes, BytesRead, Batches, InOrder, Longest;
      var immediate := ShouldFlushImmediately(pending == [], |data|);
      var turn := Read(index, data, |pending|, immediate || |pending| + |data| >= FLUSH_THRESHOLD, ok);
      Buffer(turn);
      if immediate || |pending| >= FLUSH_THRESHOLD {
        Offer(ok);
      }
    }

    /** Counts the message and appends it to the pending bytes. */
    method Buffer(turn: Turn)
      requires Counted() && received == BytesRead(turns)
      requires turn.Read? && turn.pending == |pending| && Policy(turn) && |pending| < READ_LIMIT
      requires |pending| <= peak && (peak < READ_LIMIT + longest || peak == 0) && longest == Longest(turns)
      requires forall i :: 0 <= i < |turns| ==> Policy(turns[i]) && turns[i].pending <= peak
      modifies this`pending, this`received, this`turns, this`peak, this`longest, metrics`received
      ensures Counted() && received == BytesRead(turns) && turns == old(turns) + [turn]
      ensures pending == old(pending) + turn.data && peak >= old(peak)
      ensures Batches(turns) == Batches(old(turns)) + if turn.attempted then [Batch(|pending|, turn.ok)] else []
      ensures |pending| <= peak && (peak < READ_LIMIT + longest || peak == 0) && longest == Longest(turns)
      ensures forall i :: 0 <= i < |turns| ==> Policy(turns[i]) && turns[i].pending <= peak
    {
      hide Delivered, Successes, BytesRead, Batches, InOrder, Longest, Policy;
      var data := turn.data;
      if |pending| + |data| > peak {
        peak := |pending| + |data|;
      }
      if |data| > longest {
        longest := |data|;
      }
      TurnAppend(turns, turn);
      AddTurn(turn);
      Append(data);
    }

    method Append(data: seq<byte>)
      requires Counted()
      modifies this`pending, this`received, metrics`received
      ensures Counted() && received == old(received) + data && pending == old(pending) + data
    {
      hide Delivered, Successes, InOrder;
      metrics.received := metrics.received + |data|;
      InOrderGrows(attempts, received, data);
      received := received + data;
      pending := pending + data;
    }

    /** One branch of the loop: whether it stops, and with which status. */
    method Take(at: nat, choice: Choice) returns (stops: bool, status: Option<int>)
      requires Valid()
      modifies this`pending, this`paused, this`pauseOpen, this`received, this`attempts, this`turns, this`peak,
               this`longest, metrics
      ensures Valid() && old(attempts) <= attempts && peak >= old(peak)
      ensures var mayRead := choice.Incoming? && !old(paused) && |old(pending)| < READ_LIMIT;
              && turns == old(turns) +
                 (if choice.OutputTick? then [Tick(|old(pending)|, |old(pending)| > 0, choice.ok)]
                  else if mayRead && choice.message.Data?
                  then [Read(at, choice.message.bytes, |old(pending)|,
                             Flushes(|old(pending)|, |choice.message.bytes|), choice.ok)]
                  else [])
              && (stops <==>
                    choice.Stopped?
                    || (mayRead && (choice.message.ExitStatus? || choice.message.Close? || choice.message.Ended?)))
              && status == (if mayRead && choice.message.ExitStatus? then Some(choice.message.status) else None)
      ensures Watch(pauseOpen, paused) ==
              if choice.PauseChanged? && old(pauseOpen)
              then (if choice.value.Some? then Watch(true, choice.value.value) else Watch(false, false))
              else old(Watch(pauseOpen, paused))
    {
      hide Delivered, Successes, BytesRead, Batches, InOrder, Longest, Policy, Flushes, Answered;
      stops, status := false, None;
      match choice {
        case OutputTick(ok) => OnTick(ok);
        case PauseChanged(value) => OnPauseChanged(value);
        case Incoming(message, ok) =>
          if !paused && |pending| < READ_LIMIT {
            match message {
              case Data(data) => OnData(at, data, ok);
              case ExitStatus(code) => stops, status := true, Some(code);
              case Eof =>
              case Close => stops := true;
              case Ended => stops := true;
              case Other =>
            }
          }
        case Stopped => stops := true;
      }
    }

    /** Takes the chosen branches until one stops the loop. */
    method Serve(initialPause: bool, choices: seq<Choice>) returns (exitCode: int, pendings: seq<nat>)
      requires Valid() && turns == [] && pauseOpen && paused == initialPause
      modifies this`pending, this`paused, this`pauseOpen, this`received, this`attempts, this`turns, this`peak,
               this`longest, metrics
      ensures Valid() && FollowsChoices(initialPause, choices, pendings, turns, attempts, exitCode)
      ensures forall i :: 0 <= i < |pendings| ==> pendings[i] <= peak
    {
      hide Delivered, Successes, BytesRead, Batches, InOrder, Longest, Policy, WatchAfter, TurnsOf, TurnOf, PendingIs,
        Stops, MayRead, Flushes;
      exitCode, pendings := -1, [];
      var at, running := 0, true;
      WatchStart(initialPause, choices);
      while at < |choices| && running
        invariant 0 <= at == |pendings| <= |choices|
        invariant Valid()
        invariant running ==> Watch(pauseOpen, paused) == WatchAfter(initialPause, choices[..at])
        invariant turns == TurnsOf(initialPause, choices[..at], pendings)
        invariant forall i :: 0 <= i < at ==> PendingIs(initialPause, choices, pendings, attempts, i)
        invariant forall i :: 0 <= i < at ==>
                  (Stops(initialPause, choices, i, pendings[i]) <==> !running && i == at - 1)
        invariant forall i :: 0 <= i < at ==> pendings[i] <= peak
        invariant !running ==> at > 0
        invariant exitCode == ExitCode(initialPause, choices, pendings)
        decreases |choices| - at
      {
        var choice := choices[at];
        ghost var before, p := attempts, |pending|;
        PendingNow(initialPause, choices, pendings, turns, before, p);
        WatchStep(initialPause, choices, at);
        OneTurn(initialPause, choices, at, p, paused);
        TurnsStep(initialPause, choices, pendings, p);
        pendings := pendings + [|pending|];
        var stops, status := Take(at, choice);
        running := !stops;
        if status.Some? {
          exitCode := status.value;
        }
        PendingsKept(initialPause, choices, pendings[..at], p, before, attempts);
        at := at + 1;
      }
    }

    /** The bounded retries after the loop; what is still refused then is given up. */
    method DeliverRemaining(finals: nat -> bool) returns (lost: seq<byte>, finalAttempts: nat)
      requires Counted()
      modifies this`pending, this`attempts, metrics
      ensures Delivered(attempts) + lost == received && InOrder(attempts, received) && old(attempts) <= attempts
      ensures lost == [] || lost == old(pending)
      ensures metrics.received == |received| && metrics.queued == |Delivered(attempts)|
      ensures metrics.batches == Successes(attempts) && metrics.batches + metrics.retries == |attempts|
      ensures metrics.finalFailedBytes == |lost| && metrics.finalFailures == if lost == [] then 0 else 1
      ensures finalAttempts <= FINAL_DELIVERY_RETRY_ATTEMPTS && |attempts| == |old(attempts)| + finalAttempts
      ensures forall k :: 0 <= k < finalAttempts ==> attempts[|old(attempts)| + k] == Attempt(old(pending), finals(k))
      ensures forall i :: |old(attempts)| <= i < |attempts| ==> (attempts[i].ok <==> lost == [] && i == |attempts| - 1)
      ensures finalAttempts == 0 <==> old(pending) == []
      ensures lost != [] ==> finalAttempts == FINAL_DELIVERY_RETRY_ATTEMPTS
      ensures lost != [] <==> old(pending) != [] && forall k :: 0 <= k < FINAL_DELIVERY_RETRY_ATTEMPTS ==> !finals(k)
    {
      hide Delivered, Successes, BytesRead, Batches, InOrder, Longest;
      lost, finalAttempts := [], 0;
      var output := pending;
      while finalAttempts < FINAL_DELIVERY_RETRY_ATTEMPTS && pending != []
        invariant finalAttempts <= FINAL_DELIVERY_RETRY_ATTEMPTS
        invariant Counted() && |attempts| == |old(attempts)| + finalAttempts && old(attempts) <= attempts
        invariant forall k :: 0 <= k < finalAttempts ==> attempts[|old(attempts)| + k] == Attempt(output, finals(k))
        invariant pending == output || (pending == [] && 0 < finalAttempts && finals(finalAttempts - 1))
        invariant output != [] && finalAttempts == 0 ==> pending == output
        invariant output == [] ==> finalAttempts == 0
        invariant pending == output ==> forall k :: 0 <= k < finalAttempts ==> !finals(k)
        invariant forall i :: |old(attempts)| <= i < |attempts| ==>
                  (attempts[i].ok <==> pending == [] && i == |attempts| - 1)
      {
        Offer(finals(finalAttempts));
        finalAttempts := finalAttempts + 1;
      }
      if pending != [] {
        metrics.RecordFinalDeliveryFailure(|pending|);
        lost := pending;
      }
    }
  }

  /** The status of the exit message that stopped the loop, if one did. */
  function ExitCode(initialPause: bool, choices: seq<Choice>, pendings: seq<nat>): int
    requires |pendings| <= |choices|
  {
    var n := |pendings|;
    if n > 0 && Stops(initialPause, choices, n - 1, pendings[n - 1])
       && choices[n - 1].Incoming? && choices[n - 1].message.ExitStatus?
    then choices[n - 1].message.status else -1
  }

  /** The turns taken are those of the branches chosen up to the first one that stops the loop. */
  ghost predicate FollowsChoices(initialPause: bool, choices: seq<Choice>, pendings: seq<nat>, turns: seq<Turn>,
                                 attempts: seq<Attempt>, exitCode: int) {
    var n := |pendings|;
    && n <= |choices|
    && turns == TurnsOf(initialPause, choices[..n], pendings)
    && (forall i :: 0 <= i < n ==> PendingIs(initialPause, choices, pendings, attempts, i))
    && (forall i :: 0 <= i < n ==> (Stops(initialPause, choices, i, pendings[i]) ==> i == n - 1))
    && (n == |choices| || (n > 0 && Stops(initialPause, choices, n - 1, pendings[n - 1])))
    && exitCode == ExitCode(initialPause, choices, pendings)
  }

  /** Choice `i` hands a message to the loop: the channel is read, that is neither paused nor full. */
  predicate Receives(initialPause: bool, choices: seq<Choice>, i: nat, pending: nat)
    requires i < |choices|
  {
    choices[i].Incoming? && !WatchAfter(initialPause, choices[..i]).paused && pending < 512 * 1024
  }

  /** The first disconnect, exit status, close or end that is noticed stops the loop. The code reported is the status
      of the exit message that did, and -1 when none did. */
  ghost predicate Closes(initialPause: bool, choices: seq<Choice>, pendings: seq<nat>, exitCode: int) {
    var n := |pendings|;
    && n <= |choices|
    && (forall i :: 0 <= i < n - 1 ==>
          && choices[i] != Stopped
          && (Receives(initialPause, choices, i, pendings[i]) ==>
                choices[i].message.Data? || choices[i].message.Eof? || choices[i].message.Other?))
    && (n < |choices| ==> n > 0)
    && (0 < n < |choices| && choices[n - 1] != Stopped ==>
          && Receives(initialPause, choices, n - 1, pendings[n - 1])
          && !(choices[n - 1].message.Data? || choices[n - 1].message.Eof? || choices[n - 1].message.Other?))
    && (n > 0 && Receives(initialPause, choices, n - 1, pendings[n - 1]) && choices[n - 1].message.ExitStatus? ==>
          exitCode == choices[n - 1].message.status)
    && ((forall i :: 0 <= i < n && Receives(initialPause, choices, i, pendings[i]) ==>
           !choices[i].message.ExitStatus?) ==> exitCode == -1)
  }

  lemma ClosesAsChosen(initial: bool, choices: seq<Choice>, pendings: seq<nat>, turns: seq<Turn>,
                       attempts: seq<Attempt>, exitCode: int)
    requires FollowsChoices(initial, choices, pendings, turns, attempts, exitCode)
    ensures Closes(initial, choices, pendings, exitCode)
  {
    hide PendingIs, TurnsOf, WatchAfter;
    var n := |pendings|;
    forall i | 0 <= i < n - 1
      ensures choices[i] != Stopped
      ensures Receives(initial, choices, i, pendings[i]) ==>
                choices[i].message.Data? || choices[i].message.Eof? || choices[i].message.Other?
    {
      assert !Stops(initial, choices, i, pendings[i]);
    }
    if n > 0 {
      assert Receives(initial, choices, n - 1, pendings[n - 1]) <==>
             choices[n - 1].Incoming? && MayRead(initial, choices, n - 1, pendings[n - 1]);
    }
  }

  /** Everything not delivered by the loop is offered as one batch, with the answers of `finals`, until one is yes or
      all were no; it is lost exactly in the second case. */
  ghost predicate FinalDelivery(r: Report, finals: nat -> bool) {
    && r.finalAttempts <= |r.attempts|
    && var base := |r.attempts| - r.finalAttempts;
       var done := |Delivered(r.attempts[..base])|;
       && done <= |r.received|
       && (forall k :: 0 <= k < r.finalAttempts ==> r.attempts[base + k] == Attempt(r.received[done..], finals(k)))
       && (r.finalAttempts == 0 <==> done == |r.received|)
       && (r.lost == [] || r.lost == r.received[done..])
       && (r.lost != [] <==> done < |r.received| && forall k :: 0 <= k < FINAL_DELIVERY_RETRY_ATTEMPTS ==> !finals(k))
  }

  /** `choices` are the branches taken with the callback's answers, `finals` its answers to the final delivery. A run
      that stops choosing is one in which a local disconnect comes next. */
  method RunConnectedSession(initialPause: bool, choices: seq<Choice>, finals: nat -> bool) returns (r: Report)
    ensures Accounted(r) && FollowsChoices(initialPause, choices, r.pendings, r.turns, r.attempts, r.exitCode)
    ensures Answered(r.attempts, Batches(r.turns))
    ensures Closes(initialPause, choices, r.pendings, r.exitCode)
    ensures FinalDelivery(r, finals) && r.finalAttempts <= 128
    ensures r.longest == Longest(r.turns) && (r.peak < READ_LIMIT + r.longest || r.peak == 0)
    ensures forall i :: 0 <= i < |r.pendings| ==> r.pendings[i] <= r.peak
  {
    hide Delivered, Successes, BytesRead, Batches, InOrder, Longest, Policy, FollowsChoices, Closes;
    var loop := new OutputLoop(initialPause);
    var exitCode, pendings := loop.Serve(initialPause, choices);
    ghost var early, pending := loop.attempts, loop.pending;
    var lost, finalAttempts := loop.DeliverRemaining(finals);
    FollowsLater(initialPause, choices, pendings, loop.turns, early, loop.attempts, exitCode);
    ClosesAsChosen(initialPause, choices, pendings, loop.turns, loop.attempts, exitCode);
    var m := loop.metrics;
    r := Report(exitCode, loop.received, lost, pendings, loop.turns, loop.attempts, finalAttempts, loop.peak,
        loop.longest,
                m.queued, m.retries, m.finalFailures, m.finalFailedBytes, m.batches);
    assert r.attempts[..|early|] == early;
    assert r.received[|Delivered(early)|..] == pending;
  }

  lemma FollowsLater(initial: bool, choices: seq<Choice>, pendings: seq<nat>, turns: seq<Turn>, early: seq<Attempt>,
                     late: seq<Attempt>, exitCode: int)
    requires FollowsChoices(initial, choices, pendings, turns, early, exitCode) && early <= late
    ensures FollowsChoices(initial, choices, pendings, turns, late, exitCode)
  {
    hide PendingIs, Stops, TurnsOf, ExitCode;
    PendingsStay(initial, choices, pendings, early, late);
  }

  /** Whatever was read was read unpaused and below the limit, and every turn follows the flush policy. */
  lemma {:induction false} ReadsObeyPause(initial: bool, choices: seq<Choice>, pendings: seq<nat>)
    requires |pendings| == |choices|
    ensures forall t :: t in TurnsOf(initial, choices, pendings) ==>
      Policy(t) && (t.Read? ==>
        && t.index < |choices| && t.pending == pendings[t.index] < READ_LIMIT
        && choices[t.index].Incoming? && choices[t.index].message == Data(t.data)
        && !WatchAfter(initial, choices[..t.index]).paused)
  {
    hide WatchAfter;
    if |choices| > 0 {
      var i := |choices| - 1;
      ReadsObeyPause(initial, choices[..i], pendings[..i]);
      forall k | 0 <= k <= i ensures choices[..i][..k] == choices[..k] {
      }
    }
  }

  /** A message is offered at once when it is small and nothing was pending, or when 64 KiB have gathered; a tick offers
      whatever is pending. */
  lemma PolicyMeans(t: Turn)
    ensures Policy(t) <==>
            (t.attempted <==>
               if t.Tick? then t.pending > 0
               else (t.pending == 0 && 0 < |t.data| <= 256) || t.pending + |t.data| >= 65536)
  {
  }

  /** Every tick and every data message handed to the loop is a turn, in the order of the choices. */
  lemma {:induction false} EveryChoiceIsATurn(initial: bool, choices: seq<Choice>, pendings: seq<nat>, i: nat)
    requires |pendings| == |choices| && i < |choices|
    ensures choices[i].OutputTick? ==>
              exists t :: t in TurnsOf(initial, choices, pendings)
                          && t.Tick? && t.pending == pendings[i] && t.ok == choices[i].ok
    ensures Receives(initial, choices, i, pendings[i]) && choices[i].message.Data? ==>
              exists t :: t in TurnsOf(initial, choices, pendings)
                          && t.Read? && t.index == i && t.data == choices[i].message.bytes
                          && t.pending == pendings[i] && t.ok == choices[i].ok
    decreases |choices|
  {
    hide WatchAfter;
    var n := |choices| - 1;
    if i < n {
      EveryChoiceIsATurn(initial, choices[..n], pendings[..n], i);
      assert choices[..n][..i] == choices[..i];
      assert forall t :: t in TurnsOf(initial, choices[..n], pendings[..n]) ==>
          t in TurnsOf(initial, choices, pendings);
    } else {
      assert forall t :: t in TurnOf(initial, choices, n, pendings[n]) ==> t in TurnsOf(initial, choices, pendings);
      if choices[i].OutputTick? {
        assert Tick(pendings[n], pendings[n] > 0, choices[n].ok) in TurnOf(initial, choices, n, pendings[n]);
      }
      if Receives(initial, choices, i, pendings[i]) && choices[i].message.Data? {
        var data := choices[n].message.bytes;
        assert Read(n, data, pendings[n], Flushes(pendings[n], |data|), choices[n].ok)
               in TurnOf(initial, choices, n, pendings[n]);
      }
    }
  }

  /** Turns are in order: a message read later comes from a later choice. */
  lemma {:induction false} ReadsInOrder(initial: bool, choices: seq<Choice>, pendings: seq<nat>, j: nat, k: nat)
    requires |pendings| == |choices| && j < k < |TurnsOf(initial, choices, pendings)|
    requires TurnsOf(initial, choices, pendings)[j].Read? && TurnsOf(initial, choices, pendings)[k].Read?
    ensures TurnsOf(initial, choices, pendings)[j].index < TurnsOf(initial, choices, pendings)[k].index
    decreases |choices|
  {
    hide WatchAfter;
    var n := |choices| - 1;
    var earlier := TurnsOf(initial, choices[..n], pendings[..n]);
    ReadsObeyPause(initial, choices[..n], pendings[..n]);
    if k < |earlier| {
      ReadsInOrder(initial, choices[..n], pendings[..n], j, k);
    } else {
      assert earlier[j] in earlier;
    }
  }

  predicate LastChange(choices: seq<Choice>, i: nat)
    requires i < |choices|
  {
    choices[i].PauseChanged? && forall k :: i < k < |choices| ==> !choices[k].PauseChanged?
  }

  /** The pause is the value sent last, and none once the sender is gone. */
  lemma {:induction false} WatchMeans(initial: bool, choices: seq<Choice>)
    ensures var w := WatchAfter(initial, choices);
            && (w.open <==> PauseChanged(None) !in choices)
            && (!w.open ==> !w.paused)
    ensures (forall k :: 0 <= k < |choices| ==> !choices[k].PauseChanged?) ==>
              WatchAfter(initial, choices).paused == initial
    ensures PauseChanged(None) !in choices ==>
              forall i :: 0 <= i < |choices| && LastChange(choices, i) ==>
                WatchAfter(initial, choices).paused == choices[i].value.value
  {
    if |choices| > 0 {
      var n := |choices| - 1;
      WatchMeans(initial, choices[..n]);
      assert choices == choices[..n] + [choices[n]];
      forall i | 0 <= i < n && LastChange(choices, i) ensures LastChange(choices[..n], i) {
      }
    }
  }

  lemma WatchStart(initial: bool, choices: seq<Choice>)
    ensures WatchAfter(initial, choices[..0]) == Watch(true, initial)
    ensures TurnsOf(initial, choices[..0], []) == []
  {
  }

  lemma WatchStep(initial: bool, choices: seq<Choice>, at: nat)
    requires at < |choices|
    ensures var w, choice := WatchAfter(initial, choices[..at]), choices[at];
            WatchAfter(initial, choices[..at + 1]) ==
            if choice.PauseChanged? && w.open
            then (if choice.value.Some? then Watch(true, choice.value.value) else Watch(false, false)) else w
  {
    assert choices[..at + 1][..at] == choices[..at];
  }

  /** What one branch amounts to when the watch is known. */
  lemma OneTurn(initial: bool, choices: seq<Choice>, at: nat, pending: nat, paused: bool)
    requires at < |choices| && paused == WatchAfter(initial, choices[..at]).paused
    ensures MayRead(initial, choices, at, pending) <==> !paused && pending < READ_LIMIT
    ensures choices[at].OutputTick? ==>
            TurnOf(initial, choices, at, pending) == [Tick(pending, pending > 0, choices[at].ok)]
    ensures choices[at].Incoming? && choices[at].message.Data? && !paused && pending < READ_LIMIT ==>
      var data := choices[at].message.bytes;
      TurnOf(initial, choices, at, pending) == [Read(at, data, pending, Flushes(pending, |data|), choices[at].ok)]
    ensures !choices[at].OutputTick?
            && !(choices[at].Incoming? && choices[at].message.Data? && !paused && pending < READ_LIMIT) ==>
            TurnOf(initial, choices, at, pending) == []
    ensures Stops(initial, choices, at, pending) <==>
            || choices[at].Stopped?
            || (&& choices[at].Incoming? && !paused && pending < READ_LIMIT
                && (choices[at].message.ExitStatus? || choices[at].message.Close? || choices[at].message.Ended?))
  {
  }

  lemma TurnsStep(initial: bool, choices: seq<Choice>, pendings: seq<nat>, p: nat)
    requires |pendings| < |choices|
    ensures var at := |pendings|;
            TurnsOf(initial, choices[..at + 1], pendings + [p])
            == TurnsOf(initial, choices[..at], pendings) + TurnOf(initial, choices, at, p)
  {
    var at := |pendings|;
    assert choices[..at + 1][..at] == choices[..at] && (pendings + [p])[..at] == pendings;
    assert TurnOf(initial, choices[..at + 1], at, p) == TurnOf(initial, choices, at, p);
  }

  lemma PendingNow(initial: bool, choices: seq<Choice>, pendings: seq<nat>, turns: seq<Turn>, attempts: seq<Attempt>,
                   p: nat)
    requires |pendings| < |choices| && turns == TurnsOf(initial, choices[..|pendings|], pendings)
    requires |Batches(turns)| == |attempts| && |BytesRead(turns)| == |Delivered(attempts)| + p
    ensures PendingIs(initial, choices, pendings + [p], attempts, |pendings|)
  {
    assert (pendings + [p])[..|pendings|] == pendings && attempts[..|attempts|] == attempts;
  }

  lemma PendingsStay(initial: bool, choices: seq<Choice>, pendings: seq<nat>, early: seq<Attempt>, late: seq<Attempt>)
    requires |pendings| <= |choices| && early <= late
    requires forall i :: 0 <= i < |pendings| ==> PendingIs(initial, choices, pendings, early, i)
    ensures forall i :: 0 <= i < |pendings| ==> PendingIs(initial, choices, pendings, late, i)
  {
    forall i | 0 <= i < |pendings| ensures PendingIs(initial, choices, pendings, late, i) {
      assert PendingIs(initial, choices, pendings, early, i);
      var offered := |Batches(TurnsOf(initial, choices[..i], pendings[..i]))|;
      assert late[..offered] == early[..offered];
    }
  }

  lemma PendingsKept(initial: bool, choices: seq<Choice>, pendings: seq<nat>, p: nat, early: seq<Attempt>,
                     late: seq<Attempt>)
    requires |pendings| < |choices| && early <= late
    requires forall i :: 0 <= i < |pendings| ==> PendingIs(initial, choices, pendings, early, i)
    requires PendingIs(initial, choices, pendings + [p], early, |pendings|)
    ensures forall i :: 0 <= i <= |pendings| ==> PendingIs(initial, choices, pendings + [p], late, i)
  {
    var longer := pendings + [p];
    forall i | 0 <= i < |pendings| ensures PendingIs(initial, choices, longer, early, i) {
      assert PendingIs(initial, choices, pendings, early, i);
      assert longer[..i] == pendings[..i];
    }
    PendingsStay(initial, choices, longer, early, late);
  }
}
