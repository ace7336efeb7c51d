/** What each section of the launch gate does when it can: nothing is refused, and nobody waits, without a reason. */
module StartGateLaws {
  import opened Basics
  import opened StartGate
  import opened StartGateRuns

  /** Somebody waits at the gate, and the deadline has not passed. */
  predicate WaitsAt(r: Record, now: real) {
    r.status == Some(Waiting) && r.deadline.Some? && now < r.deadline.value
  }

  // ---- Control calls -------------------------------------------------------------

  /** A cancel returns exactly when nothing has started, completed or expired, and leaves the gate cancelled. */
  lemma CancelReturns(schedule: seq<Event>, scene: Scene)
    ensures var w := Run(schedule);
            var (after, returned) := ControlStep(w, Control(Cancel, scene, Good));
            && after == w.(record := after.record)
            && (returned <==> w.record.status in {None, Some(Waiting), Some(Released), Some(Cancelled)})
            && after.record == if returned then w.record.(status := Some(Cancelled)) else w.record
  {
    hide Run;
  }

  /** Ready answers exactly while a live holder waits before its deadline, and changes nothing. */
  lemma ReadyReturns(schedule: seq<Event>, scene: Scene)
    ensures var w := Run(schedule);
            var (after, returned) := ControlStep(w, Control(Ready, scene, Good));
            && (returned <==> WaitsAt(w.record, scene.now) && scene.alive)
            && (returned ==> after == w)
  {
    RunKeepsInv(schedule);
    WaitingHasDeadline(Run(schedule));
    hide Run;
  }

  /** Release opens the gate exactly then, provided that both checkpoints are marked, in order and inside the
      capture. */
  lemma ReleaseReturns(schedule: seq<Event>, scene: Scene, before: int, hidden: int, size: nat)
    requires scene.marks == Some(Marks(Some(before), Some(hidden))) && scene.size == Some(size)
    ensures var w := Run(schedule);
            var (after, returned) := ControlStep(w, Control(Release, scene, Good));
            && (returned <==>
                  && WaitsAt(w.record, scene.now) && scene.alive
                  && 0 <= before && before <= hidden && hidden <= size)
            && (returned ==>
                  after == w.(record := w.record.(status := Some(Released), hiddenOffset := Some(hidden))))
  {
    RunKeepsInv(schedule);
    WaitingHasDeadline(Run(schedule));
    hide Run;
  }

  /** Without either mark or without a capture there is no release. */
  lemma UnmarkedStaysShut(schedule: seq<Event>, scene: Scene)
    requires scene.marks == None || scene.marks.value.before == None || scene.marks.value.hidden == None
             || scene.size == None
    ensures !ControlStep(Run(schedule), Control(Release, scene, Good)).1
    ensures ControlStep(Run(schedule), Control(Release, scene, Good)).0.record.status != Some(Released)
            || Run(schedule).record.status == Some(Released)
  {
    hide Run;
  }

  /** In every run a waiting gate has a holder and a deadline. */
  lemma WaitingHasDeadline(w: World)
    requires Inv(w)
    ensures w.record.status == Some(Waiting) ==> w.record.deadline.Some? && w.record.pid.Some?
  {
  }

  // ---- Starting ------------------------------------------------------------------

  /** A holder starts exactly on an unused gate with the capture there and no checkpoints yet, for at most a minute. */
  lemma HoldStarts(schedule: seq<Event>, pid: nat, s: Start)
    requires pid !in Run(schedule).phases
    ensures var w, after := Run(schedule), Step(Run(schedule), Hold(pid, s, Good));
            if w.record == EMPTY && !s.checkpoints && s.output && s.validArguments && 0.0 < s.timeout <= 60.0 then
              && after.phases == w.phases[pid := Holding]
              && after.record == EMPTY.(status := Some(Waiting), pid := Some(pid), deadline := Some(s.now + s.timeout))
            else after == w.(phases := w.phases[pid := Raised])
  {
    hide Run;
  }

  /** A task starts likewise, with its minimum duration on record. */
  lemma TaskStarts(schedule: seq<Event>, pid: nat, s: Start)
    requires pid !in Run(schedule).phases
    ensures var w, after := Run(schedule), Step(Run(schedule), Task(pid, s, Good));
            if w.record == EMPTY && !s.checkpoints && s.output && 0.0 < s.least < s.timeout <= 60.0 then
              && after.phases == w.phases[pid := Working(s.now, s.timeout, s.least)]
              && after.record == EMPTY.(status := Some(Waiting), pid := Some(pid), deadline := Some(s.now + s.timeout),
                                        minimum := Some(s.least))
            else after == w.(phases := w.phases[pid := Raised])
  {
    hide Run;
  }

  // ---- Polling --------------------------------------------------------------------

  /** A holder's poll launches a gate released in time, sleeps on one that waits, and otherwise returns: 124 once the
      deadline has passed, 125 for a cancelled gate. */
  lemma HolderPolls(schedule: seq<Event>, pid: nat, now: real)
    requires pid in Run(schedule).phases && Run(schedule).phases[pid] == Holding
    ensures var w, after := Run(schedule), Step(Run(schedule), Poll(pid, now, Good));
            && w.record.deadline.Some? && after.launches == w.launches
            && (w.record.status in {Some(Waiting), Some(Released)} && now >= w.record.deadline.value ==>
                  after.record == w.record.(status := Some(Expired)) && after.phases == w.phases[pid := Exited(124)])
            && (w.record.status == Some(Released) && now < w.record.deadline.value ==>
                  after.record == w.record.(status := Some(Started)) && after.phases == w.phases[pid := Launching])
            && (w.record.status == Some(Waiting) && now < w.record.deadline.value ==> after == w)
            && (w.record.status == Some(Expired) ==>
                  after == w.(phases := w.phases[pid := Exited(124)]))
            && (w.record.status == Some(Cancelled) ==>
                  after == w.(phases := w.phases[pid := Exited(125)]))
  {
    RunKeepsInv(schedule);
    HolderHasDeadline(Run(schedule), pid);
    hide Run;
  }

  lemma HolderHasDeadline(w: World, pid: nat)
    requires Inv(w) && pid in w.phases && w.phases[pid] == Holding
    ensures w.record.deadline.Some? && w.record.status.Some?
  {
    assert Fits(w, pid, w.phases[pid]);
  }

  /** A task's poll completes a gate released in time once the minimum has passed, and sleeps until then. */
  lemma TaskPolls(schedule: seq<Event>, pid: nat, now: real, started: real, timeout: real, least: real)
    requires pid in Run(schedule).phases && Run(schedule).phases[pid] == Working(started, timeout, least)
    ensures var w, after := Run(schedule), Step(Run(schedule), Poll(pid, now, Good));
            var elapsed := now - started;
            && after.launches == w.launches
            && (w.record.status in {Some(Waiting), Some(Released)} && elapsed >= timeout ==>
                  && after.record == w.record.(status := Some(Expired))
                  && after.phases == w.phases[pid := Leaving(Some(124))])
            && (w.record.status == Some(Released) && least <= elapsed < timeout ==>
                  && after.record == w.record.(status := Some(TaskCompleted), elapsed := Some(elapsed))
                  && after.phases == w.phases[pid := Leaving(Some(0))])
            && (w.record.status == Some(Waiting) && elapsed < timeout ==> after == w)
            && (w.record.status == Some(Released) && elapsed < least && elapsed < timeout ==> after == w)
            && (w.record.status == Some(Expired) ==> after == w.(phases := w.phases[pid := Leaving(Some(124))]))
            && (w.record.status == Some(Cancelled) ==> after == w.(phases := w.phases[pid := Leaving(Some(125))]))
  {
    hide Run;
    var w := Run(schedule);
    if w.record.status in {Some(Waiting), Some(Released)} {
      if w.record.status == Some(Released) && least <= now - started < timeout {
        assert w.record.(status := Some(TaskCompleted), elapsed := Some(now - started)) != w.record;
      }
    }
  }

  // ---- The end of a process ----------------------------------------------------------

  /** The handlers cancel what is still open and nothing else; then the process exits with its code, or raises. */
  lemma HandlersCancel(schedule: seq<Event>, pid: nat)
    requires pid in Run(schedule).phases
    requires Run(schedule).phases[pid].Unwinding? || Run(schedule).phases[pid].Leaving?
    ensures var w, after := Run(schedule), Step(Run(schedule), Unwind(pid, Good));
            && after.launches == w.launches
            && after.record == (if w.record.status in {Some(Waiting), Some(Released)}
                                then w.record.(status := Some(Cancelled)) else w.record)
            && after.phases == w.phases[pid := if w.phases[pid].Leaving? && w.phases[pid].code.Some?
                                               then Exited(w.phases[pid].code.value) else Raised]
  {
    hide Run;
  }

  /** A signal sends a process to its handlers, before or after it has left the loop; it changes nothing else. */
  lemma SignalsUnwind(schedule: seq<Event>, pid: nat)
    requires pid in Run(schedule).phases
    requires Run(schedule).phases[pid] in {Holding, Launching} || Run(schedule).phases[pid].Working?
    ensures var w, after := Run(schedule), Step(Run(schedule), Interrupt(pid));
            after == w.(phases := w.phases[pid := if w.phases[pid].Working? then Leaving(None) else Unwinding])
  {
    hide Run;
  }

  /** A section whose file cannot be read or written leaves the file alone, and no control call returns from it unless
      there was nothing to write. */
  lemma LostWriteChangesNothing(schedule: seq<Event>, action: Action, scene: Scene, io: Io)
    requires io == Unreadable || io == WriteLost
    ensures var w := Run(schedule);
            var (after, returned) := ControlStep(w, Control(action, scene, io));
            && after == w && (returned ==> io == WriteLost && ControlStep(w, Control(action, scene, Good)) == (w, true))
  {
    hide Run;
  }

  // ---- A released task completes -------------------------------------------------------

  /** A task on an unused gate, released in time with valid checkpoints and polled between its minimum and its timeout,
      exits with code 0 and leaves its duration on record. */
  lemma ReleasedTaskCompletes(pid: nat, s: Start, scene: Scene, now: real)
    requires 0.0 < s.least < s.timeout <= 60.0 && !s.checkpoints && s.output
    requires scene.now < s.now + s.timeout && scene.alive && ValidMarks(scene)
    requires s.now + s.least <= now < s.now + s.timeout
    ensures var w := Run([Task(pid, s, Good), Control(Release, scene, Good), Poll(pid, now, Good), Unwind(pid, Good)]);
            && pid in w.phases && w.phases[pid] == Exited(0) && w.launches == 0
            && w.record.status == Some(TaskCompleted) && w.record.elapsed == Some(now - s.now)
            && w.record.hiddenOffset == scene.marks.value.hidden
  {
    var a, b, c, d := Task(pid, s, Good), Control(Release, scene, Good), Poll(pid, now, Good), Unwind(pid, Good);
    RunSnoc([], a);
    RunSnoc([a], b);
    RunSnoc([a, b], c);
    RunSnoc([a, b, c], d);
    assert [] + [a] == [a] && [a] + [b] == [a, b] && [a, b] + [c] == [a, b, c] && [a, b, c] + [d] == [a, b, c, d];
    assert Run([]) == FRESH;
    hide Run;
  }
}
