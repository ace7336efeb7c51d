/** What every interleaving of gate processes keeps. */
module StartGateRuns {
  import opened Basics
  import opened StartGate

  /** A process between its start section and its end that can still act on the record. */
  predicate Engaged(phase: Phase) {
    phase.Holding? || phase.Working? || phase.Launching? || phase.Unwinding? || phase.Leaving?
  }

  /** The exit code of a process that returned, beside the record it left behind. */
  predicate CodeFits(code: nat, status: Option<Status>) {
    || (code == 0 && status == Some(TaskCompleted))
    || (code == 124 && status == Some(Expired))
    || (code == 125 && status == Some(Cancelled))
  }

  /** The record an engaged process finds. */
  predicate Fits(w: World, pid: nat, phase: Phase) {
    && (Engaged(phase) ==> w.record.pid == Some(pid) && w.record.deadline.Some?)
    && (phase.Holding? || phase.Working? ==> w.record.status != Some(Started) && w.record.status != Some(TaskCompleted))
    && (phase.Working? ==>
        w.record.deadline == Some(phase.started + phase.timeout) && w.record.minimum == Some(phase.least))
    && (phase.Launching? ==> w.record.status == Some(Started) && w.launches == 0)
    && (phase.Replaced? ==> w.record.status == Some(Started))
    && (phase.Leaving? && phase.code.Some? ==> CodeFits(phase.code.value, w.record.status))
    && (phase.Exited? ==> CodeFits(phase.exit, w.record.status))
  }

  ghost predicate Inv(w: World) {
    && (w.record.status == None ==> w.record == EMPTY)
    && (Open(w.record.status) ==> w.record.deadline.Some? && w.record.pid.Some?)
    && w.launches <= 1
    && (w.launches == 1 ==> w.record.status == Some(Started))
    && (w.record.status == Some(Released) || w.record.status == Some(Started)
        || w.record.status == Some(TaskCompleted) ==>
          w.record.hiddenOffset.Some?)
    && (w.record.status == Some(TaskCompleted) ==>
          w.record.elapsed.Some? && w.record.minimum.Some? && w.record.elapsed.value >= w.record.minimum.value)
    && forall pid :: pid in w.phases ==> Fits(w, pid, w.phases[pid])
  }

  lemma KeptByControl(w: World, e: Event)
    requires Inv(w) && e.Control?
    ensures Inv(Step(w, e))
  {
  }

  lemma KeptByStart(w: World, pid: nat, s: Start, io: Io, task: bool)
    requires Inv(w) && pid !in w.phases
    ensures Inv(StartStep(w, pid, s, io, task))
  {
  }

  lemma KeptByPoll(w: World, pid: nat, now: real, io: Io)
    requires Inv(w) && pid in w.phases
    ensures Inv(PollStep(w, pid, now, io))
  {
    var p := PollStep(w, pid, now, io);
    assert Fits(w, pid, w.phases[pid]);
    if w.phases[pid].Holding? || w.phases[pid].Working? {
      EngagedStatus(w, pid);
    }
    forall q | q in p.phases ensures Fits(p, q, p.phases[q]) {
      assert Fits(w, q, w.phases[q]);
    }
  }

  lemma KeptByEnd(w: World, pid: nat, ok: bool, io: Io)
    requires Inv(w) && pid in w.phases
    ensures Inv(InterruptStep(w, pid)) && Inv(ExecStep(w, pid, ok)) && Inv(UnwindStep(w, pid, io))
  {
    assert Fits(w, pid, w.phases[pid]);
    forall q | q in w.phases ensures Fits(w, q, w.phases[q]) {
    }
  }

  lemma InvStep(w: World, e: Event)
    requires Inv(w)
    ensures Inv(Step(w, e))
  {
    hide Inv, ControlStep, StartStep, PollStep, InterruptStep, ExecStep, UnwindStep;
    match e {
      case Control(_, _, _) => KeptByControl(w, e);
      case Hold(pid, s, io) => if pid !in w.phases { KeptByStart(w, pid, s, io, false); }
      case Task(pid, s, io) => if pid !in w.phases { KeptByStart(w, pid, s, io, true); }
      case Poll(pid, now, io) => if pid in w.phases { KeptByPoll(w, pid, now, io); }
      case Interrupt(pid) => if pid in w.phases { KeptByEnd(w, pid, true, Good); }
      case Exec(pid, ok) => if pid in w.phases { KeptByEnd(w, pid, ok, Good); }
      case Unwind(pid, io) => if pid in w.phases { KeptByEnd(w, pid, true, io); }
    }
  }

  lemma {:induction false} RunKeepsInv(schedule: seq<Event>)
    ensures Inv(Run(schedule))
  {
    hide Step;
    if |schedule| > 0 {
      var front := schedule[..|schedule| - 1];
      RunKeepsInv(front);
      InvStep(Run(front), schedule[|schedule| - 1]);
    }
  }

  /** At most one launch in any interleaving, and only with the record saying `started`. */
  lemma AtMostOneLaunch(schedule: seq<Event>)
    ensures Run(schedule).launches <= 1
    ensures Run(schedule).launches == 1 ==> Run(schedule).record.status == Some(Started)
  {
    hide Run;
    RunKeepsInv(schedule);
  }

  /** At most one process at a time can act on the record: the one whose identifier it holds. */
  lemma OneEngaged(schedule: seq<Event>, p: nat, q: nat)
    requires var w := Run(schedule); p in w.phases && q in w.phases && Engaged(w.phases[p]) && Engaged(w.phases[q])
    ensures p == q && Run(schedule).record.pid == Some(p)
  {
    hide Run;
    RunKeepsInv(schedule);
    var w := Run(schedule);
    assert Fits(w, p, w.phases[p]) && Fits(w, q, w.phases[q]);
  }

  // ---- Endings are final -------------------------------------------------------

  lemma TerminalKept(w: World, e: Event)
    requires Terminal(w.record.status)
    ensures Step(w, e).record == w.record
  {
  }

  /** A record that says started, task-completed, cancelled or expired never changes again. */
  lemma {:induction false} TerminalForever(schedule: seq<Event>, more: seq<Event>)
    requires Terminal(Run(schedule).record.status)
    ensures Run(schedule + more).record == Run(schedule).record
  {
    hide Step, Terminal, Run;
    if |more| == 0 {
      assert schedule + more == schedule;
    } else {
      var front, e := more[..|more| - 1], more[|more| - 1];
      TerminalForever(schedule, front);
      assert schedule + more == (schedule + front) + [e];
      RunSnoc(schedule + front, e);
      TerminalKept(Run(schedule + front), e);
    }
  }

  predicate CancelReturnsAt(schedule: seq<Event>, i: nat) {
    && i < |schedule| && schedule[i].Control? && schedule[i].action == Cancel
    && ControlStep(Run(schedule[..i]), schedule[i]).1
  }

  lemma CancelRecorded(w: World, e: Event)
    requires e.Control? && e.action == Cancel && ControlStep(w, e).1
    ensures Step(w, e).record.status == Some(Cancelled)
  {
  }

  lemma RunAt(schedule: seq<Event>, i: nat)
    requires i < |schedule|
    ensures Run(schedule[..i + 1]) == Step(Run(schedule[..i]), schedule[i])
    ensures schedule[..i + 1] + schedule[i + 1..] == schedule
  {
    hide Step;
    assert schedule[..i + 1] == schedule[..i] + [schedule[i]];
    RunSnoc(schedule[..i], schedule[i]);
  }

  /** A cancel that returns is final: nothing is launched before it or after it. */
  lemma CancelWins(schedule: seq<Event>, i: nat)
    requires CancelReturnsAt(schedule, i)
    ensures Run(schedule).launches == 0 && Run(schedule).record.status == Some(Cancelled)
  {
    hide Run, Step, ControlStep;
    RunAt(schedule, i);
    CancelRecorded(Run(schedule[..i]), schedule[i]);
    TerminalForever(schedule[..i + 1], schedule[i + 1..]);
    AtMostOneLaunch(schedule);
  }

  /** After a cancel that returned, every process that arrives is turned away. */
  lemma LateStartsRaise(schedule: seq<Event>, i: nat, e: Event)
    requires CancelReturnsAt(schedule, i)
    requires (e.Hold? || e.Task?) && e.pid !in Run(schedule).phases
    ensures Run(schedule + [e]).phases[e.pid] == Raised && Run(schedule + [e]).record == Run(schedule).record
  {
    CancelWins(schedule, i);
    RunSnoc(schedule, e);
    hide Run;
  }

  // ---- Starting needs a release --------------------------------------------------

  predicate PastRelease(status: Option<Status>) {
    status == Some(Released) || Done(status)
  }

  predicate Done(status: Option<Status>) {
    status == Some(Started) || status == Some(TaskCompleted)
  }

  /** Step `i` is a release before the deadline that recorded valid checkpoints. */
  predicate ReleaseAt(schedule: seq<Event>, i: nat, deadline: Option<real>, hidden: Option<int>) {
    && i < |schedule| && schedule[i].Control? && schedule[i].action == Release
    && var before, after, scene := Run(schedule[..i]).record, Run(schedule[..i + 1]).record, schedule[i].scene;
       && before.status == Some(Waiting) && after.status == Some(Released)
       && deadline.Some? && before.deadline == deadline && scene.now < deadline.value
       && ValidMarks(scene) && hidden == scene.marks.value.hidden
  }

  /** Step `j` turns a released record, before the deadline, into a started or completed one. */
  predicate DoneAt(schedule: seq<Event>, j: nat, deadline: Option<real>) {
    && j < |schedule| && schedule[j].Poll?
    && var before, after := Run(schedule[..j]).record, Run(schedule[..j + 1]).record;
       && before.status == Some(Released) && Done(after.status)
       && deadline.Some? && before.deadline == deadline && schedule[j].now < deadline.value
  }

  /** How the record reaches and leaves the released state. */
  lemma ReleaseSteps(w: World, e: Event)
    requires Inv(w)
    ensures var r, next := w.record, Step(w, e).record;
            && (PastRelease(next.status) && !PastRelease(r.status) ==>
                  && e.Control? && e.action == Release && r.status == Some(Waiting) && next.status == Some(Released)
                  && r.deadline.Some? && next.deadline == r.deadline && e.scene.now < r.deadline.value
                  && ValidMarks(e.scene) && next.hiddenOffset == e.scene.marks.value.hidden)
            && (PastRelease(next.status) && PastRelease(r.status) ==>
                next.deadline == r.deadline && next.hiddenOffset == r.hiddenOffset)
            && (Done(next.status) && !Done(r.status) ==>
                  && e.Poll? && r.status == Some(Released) && r.deadline.Some? && e.now < r.deadline.value)
  {
    if e.Poll? && e.pid in w.phases {
      assert Fits(w, e.pid, w.phases[e.pid]);
    }
  }

  lemma PrefixRelease(schedule: seq<Event>, n: nat, i: nat, deadline: Option<real>, hidden: Option<int>)
    requires n <= |schedule| && ReleaseAt(schedule[..n], i, deadline, hidden)
    ensures ReleaseAt(schedule, i, deadline, hidden)
  {
    hide Run;
    assert schedule[..n][..i] == schedule[..i] && schedule[..n][..i + 1] == schedule[..i + 1];
  }

  lemma PrefixDone(schedule: seq<Event>, n: nat, j: nat, deadline: Option<real>)
    requires n <= |schedule| && DoneAt(schedule[..n], j, deadline)
    ensures DoneAt(schedule, j, deadline)
  {
    hide Run;
    assert schedule[..n][..j] == schedule[..j] && schedule[..n][..j + 1] == schedule[..j + 1];
  }

  lemma FreshRun()
    ensures !PastRelease(Run([]).record.status)
  {
  }

  /** A record past its release was released, by a call before its deadline and with valid checkpoints. */
  lemma {:induction false} ReleasedOnce(schedule: seq<Event>) returns (i: nat)
    requires PastRelease(Run(schedule).record.status)
    ensures ReleaseAt(schedule, i, Run(schedule).record.deadline, Run(schedule).record.hiddenOffset)
  {
    hide Step, ReleaseAt;
    var n: nat := if |schedule| == 0 then 0 else |schedule| - 1;
    FreshRun();
    var front, e := schedule[..n], schedule[n];
    RunKeepsInv(front);
    ReleaseSteps(Run(front), e);
    if PastRelease(Run(front).record.status) {
      i := ReleasedOnce(front);
      PrefixRelease(schedule, n, i, Run(schedule).record.deadline, Run(schedule).record.hiddenOffset);
    } else {
      i := n;
      ThisRelease(schedule, n);
    }
  }

  lemma ThisRelease(schedule: seq<Event>, n: nat)
    requires n + 1 == |schedule| && Inv(Run(schedule[..n]))
    requires PastRelease(Run(schedule).record.status) && !PastRelease(Run(schedule[..n]).record.status)
    ensures ReleaseAt(schedule, n, Run(schedule).record.deadline, Run(schedule).record.hiddenOffset)
  {
    hide Step, Run;
    RunAt(schedule, n);
    assert schedule[..n + 1] == schedule;
    ReleaseSteps(Run(schedule[..n]), schedule[n]);
  }

  /** A started or completed record was released earlier and finished later, both before the one deadline. */
  lemma {:induction false} DoneAfterRelease(schedule: seq<Event>) returns (i: nat, j: nat)
    requires Done(Run(schedule).record.status)
    ensures i < j
    ensures ReleaseAt(schedule, i, Run(schedule).record.deadline, Run(schedule).record.hiddenOffset)
    ensures DoneAt(schedule, j, Run(schedule).record.deadline)
  {
    hide Step, ReleaseAt, DoneAt;
    var n: nat := if |schedule| == 0 then 0 else |schedule| - 1;
    FreshRun();
    var front, e := schedule[..n], schedule[n];
    RunKeepsInv(front);
    ReleaseSteps(Run(front), e);
    if Done(Run(front).record.status) {
      i, j := DoneAfterRelease(front);
      PrefixDone(schedule, n, j, Run(schedule).record.deadline);
    } else {
      i := ReleasedOnce(front);
      ReleaseIndex(front, i, Run(schedule).record.deadline, Run(schedule).record.hiddenOffset);
      j := n;
      ThisDone(schedule, n);
    }
    PrefixRelease(schedule, n, i, Run(schedule).record.deadline, Run(schedule).record.hiddenOffset);
  }

  lemma ReleaseIndex(schedule: seq<Event>, i: nat, deadline: Option<real>, hidden: Option<int>)
    requires ReleaseAt(schedule, i, deadline, hidden)
    ensures i < |schedule|
  {
  }

  lemma ThisDone(schedule: seq<Event>, n: nat)
    requires n + 1 == |schedule| && Inv(Run(schedule[..n]))
    requires Done(Run(schedule).record.status) && !Done(Run(schedule[..n]).record.status)
    ensures DoneAt(schedule, n, Run(schedule).record.deadline)
  {
    hide Step, Run;
    RunAt(schedule, n);
    assert schedule[..n + 1] == schedule;
    ReleaseSteps(Run(schedule[..n]), schedule[n]);
  }

  /** Whatever was launched was released first, by a call that met valid checkpoints before the deadline. */
  lemma LaunchNeedsRelease(schedule: seq<Event>) returns (i: nat, j: nat)
    requires Run(schedule).launches > 0
    ensures i < j && DoneAt(schedule, j, Run(schedule).record.deadline)
    ensures ReleaseAt(schedule, i, Run(schedule).record.deadline, Run(schedule).record.hiddenOffset)
  {
    hide Run;
    AtMostOneLaunch(schedule);
    i, j := DoneAfterRelease(schedule);
  }

  // ---- Exit codes ------------------------------------------------------------------

  lemma EngagedStatus(w: World, pid: nat)
    requires Inv(w) && pid in w.phases && (w.phases[pid].Holding? || w.phases[pid].Working?)
    ensures Open(w.record.status) || w.record.status == Some(Cancelled) || w.record.status == Some(Expired)
    ensures Fits(w, pid, w.phases[pid])
  {
    assert Fits(w, pid, w.phases[pid]);
    assert w.record.status.Some?;
    match w.record.status.value {
      case Waiting =>
      case Released =>
      case Started =>
      case TaskCompleted =>
      case Cancelled =>
      case Expired =>
    }
  }

  lemma HoldCodes(w: World, pid: nat, now: real, io: Io)
    requires Inv(w) && pid in w.phases && w.phases[pid].Holding? && PollStep(w, pid, now, io).phases[pid].Exited?
    ensures var next := PollStep(w, pid, now, io);
            && (next.phases[pid].exit == 124 <==> next.record.status == Some(Expired))
            && (next.phases[pid].exit == 125 <==> next.record.status == Some(Cancelled))
            && next.launches == 0
  {
    EngagedStatus(w, pid);
  }

  /** A holder that returns says why: 124 for an expired gate, 125 for a cancelled one, and it launches nothing. */
  lemma HoldExitCodes(schedule: seq<Event>, pid: nat, now: real, io: Io)
    requires var w := Run(schedule); pid in w.phases && w.phases[pid].Holding?
    requires var w := Run(schedule + [Poll(pid, now, io)]); pid in w.phases && w.phases[pid].Exited?
    ensures var w := Run(schedule + [Poll(pid, now, io)]);
            && (w.phases[pid].exit == 124 <==> w.record.status == Some(Expired))
            && (w.phases[pid].exit == 125 <==> w.record.status == Some(Cancelled))
            && w.launches == 0
  {
    hide Run, Inv, PollStep;
    RunKeepsInv(schedule);
    RunSnoc(schedule, Poll(pid, now, io));
    HoldCodes(Run(schedule), pid, now, io);
  }

  lemma TaskCodes(w: World, pid: nat, now: real, io: Io)
    requires Inv(w) && pid in w.phases && w.phases[pid].Working?
    requires var phase := PollStep(w, pid, now, io).phases[pid]; phase.Leaving? && phase.code.Some?
    ensures var next := PollStep(w, pid, now, io);
            var code := next.phases[pid].code.value;
            && (code == 0 <==> next.record.status == Some(TaskCompleted))
            && (code == 0 ==> next.record.minimum.Some? && now - w.phases[pid].started >= next.record.minimum.value)
            && (code == 124 <==> next.record.status == Some(Expired))
            && (code == 125 <==> next.record.status == Some(Cancelled))
  {
    EngagedStatus(w, pid);
  }

  /** A task that is about to return was completed exactly when its code is 0, and then not before its minimum. */
  lemma TaskCodesBeforeEnd(schedule: seq<Event>, pid: nat, now: real, io: Io)
    requires var w := Run(schedule); pid in w.phases && w.phases[pid].Working?
    requires var w := Run(schedule + [Poll(pid, now, io)]);
             pid in w.phases && w.phases[pid].Leaving? && w.phases[pid].code.Some?
    ensures var w, started := Run(schedule + [Poll(pid, now, io)]), Run(schedule).phases[pid].started;
            var code := w.phases[pid].code.value;
            && (code == 0 <==> w.record.status == Some(TaskCompleted))
            && (code == 0 ==> w.record.minimum.Some? && now - started >= w.record.minimum.value)
            && (code == 124 <==> w.record.status == Some(Expired))
            && (code == 125 <==> w.record.status == Some(Cancelled))
  {
    hide Run, Inv, PollStep;
    RunKeepsInv(schedule);
    RunSnoc(schedule, Poll(pid, now, io));
    TaskCodes(Run(schedule), pid, now, io);
  }

  /** In every run the exit code of a process that returned, its handlers included, tells the record for good: 0 for a
      completed task whose recorded duration reaches its minimum, 124 for an expired gate, 125 for a cancelled one. */
  lemma ExitCodesTell(schedule: seq<Event>, pid: nat)
    requires pid in Run(schedule).phases && Run(schedule).phases[pid].Exited?
    ensures var r, code := Run(schedule).record, Run(schedule).phases[pid].exit;
            && (code == 0 <==> r.status == Some(TaskCompleted))
            && (code == 124 <==> r.status == Some(Expired))
            && (code == 125 <==> r.status == Some(Cancelled))
            && (code == 0 || code == 124 || code == 125)
            && (code == 0 ==> r.elapsed.Some? && r.minimum.Some? && r.elapsed.value >= r.minimum.value)
    ensures Run(schedule).launches == 0
  {
    hide Run;
    RunKeepsInv(schedule);
    var w := Run(schedule);
    assert Fits(w, pid, w.phases[pid]);
  }

  // ---- What a section leaves in the file ------------------------------------------------

  /** A control call that finds the deadline passed raises, and still the file says expired, for good: nothing is ever
      launched. */
  lemma ExpiryIsRecorded(schedule: seq<Event>, action: Action, scene: Scene, more: seq<Event>)
    requires action != Cancel && Run(schedule).record.status == Some(Waiting)
    requires Run(schedule).record.deadline.Some? && scene.now >= Run(schedule).record.deadline.value
    ensures !ControlStep(Run(schedule), Control(action, scene, Good)).1
    ensures var w := Run(schedule + [Control(action, scene, Good)] + more);
            w.record.status == Some(Expired) && w.launches == 0
  {
    var e := Control(action, scene, Good);
    RunSnoc(schedule, e);
    TerminalForever(schedule + [e], more);
    AtMostOneLaunch(schedule + [e] + more);
    hide Run;
  }

  /** Whoever launches found `started` in the file, holds its pid, is the only process that can still act, and is the
      first to launch. */
  lemma LaunchAfterStarted(schedule: seq<Event>, e: Event)
    requires Run(schedule + [e]).launches > Run(schedule).launches
    ensures e.Exec? && Run(schedule).launches == 0 && Run(schedule + [e]).launches == 1
    ensures var w := Run(schedule);
            && w.record.status == Some(Started) && w.record.pid == Some(e.pid)
            && forall q :: q in w.phases && Engaged(w.phases[q]) ==> q == e.pid
  {
    RunKeepsInv(schedule);
    RunSnoc(schedule, e);
    LaunchStep(Run(schedule), e);
    hide Run;
  }

  lemma LaunchStep(w: World, e: Event)
    requires Inv(w) && Step(w, e).launches > w.launches
    ensures e.Exec? && w.launches == 0 && Step(w, e).launches == 1
    ensures w.record.status == Some(Started) && w.record.pid == Some(e.pid)
    ensures forall q :: q in w.phases && Engaged(w.phases[q]) ==> q == e.pid
  {
    assert e.Exec?;
    assert Fits(w, e.pid, w.phases[e.pid]);
    forall q | q in w.phases && Engaged(w.phases[q]) ensures q == e.pid {
      assert Fits(w, q, w.phases[q]);
    }
  }

  // ---- A released gate opens ---------------------------------------------------------

  /** Held on an unused gate, released in time with valid checkpoints and polled in time, the command is launched. */
  lemma ReleasedGateLaunches(pid: nat, s: Start, scene: Scene, now: real)
    requires HoldAllowed(s) && !s.checkpoints && s.output
    requires scene.now < s.now + s.timeout && scene.alive && ValidMarks(scene) && now < s.now + s.timeout
    ensures var w := Run([Hold(pid, s, Good), Control(Release, scene, Good), Poll(pid, now, Good), Exec(pid, true)]);
            && w.launches == 1 && pid in w.phases && w.phases[pid] == Replaced
            && w.record.status == Some(Started) && w.record.hiddenOffset == scene.marks.value.hidden
  {
    var schedule := [];
    RunSnoc(schedule, Hold(pid, s, Good));
    RunSnoc([Hold(pid, s, Good)], Control(Release, scene, Good));
    RunSnoc([Hold(pid, s, Good), Control(Release, scene, Good)], Poll(pid, now, Good));
    RunSnoc([Hold(pid, s, Good), Control(Release, scene, Good), Poll(pid, now, Good)], Exec(pid, true));
    assert schedule + [Hold(pid, s, Good)] == [Hold(pid, s, Good)];
    assert [Hold(pid, s, Good)] + [Control(Release, scene, Good)] ==
           [Hold(pid, s, Good), Control(Release, scene, Good)];
    assert [Hold(pid, s, Good), Control(Release, scene, Good)] + [Poll(pid, now, Good)]
           == [Hold(pid, s, Good), Control(Release, scene, Good), Poll(pid, now, Good)];
    assert [Hold(pid, s, Good), Control(Release, scene, Good), Poll(pid, now, Good)] + [Exec(pid, true)]
           == [Hold(pid, s, Good), Control(Release, scene, Good), Poll(pid, now, Good), Exec(pid, true)];
    hide Run;
  }
}
