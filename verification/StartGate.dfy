/** The single-use launch gate: processes that change one shared record, each step inside the file lock. */
module StartGate {
  import opened Basics

  datatype Status = Waiting | Released | Started | TaskCompleted | Cancelled | Expired

  /** The state file; a missing file and an empty object are both `EMPTY`. Times are seconds of the shared clock. */
  datatype Record = Record(status: Option<Status>, pid: Option<nat>, deadline: Option<real>,
                           hiddenOffset: Option<int>, minimum: Option<real>, elapsed: Option<real>)

  const EMPTY := Record(None, None, None, None, None, None)
  const LIMIT := 60.0

  /** How reading and rewriting the file goes: fine, unreadable, or an exception before or after the replacement. */
  datatype Io = Good | Unreadable | WriteLost | WriteLate

  datatype Marks = Marks(before: Option<int>, hidden: Option<int>)

  datatype Action = Ready | Release | Cancel

  /** What a control call meets: the clock, whether the holder's pid exists, the checkpoints, the capture's size. */
  datatype Scene = Scene(now: real, alive: bool, marks: Option<Marks>, size: Option<nat>)

  /** Where a holding or task process is between two locked sections. */
  datatype Phase =
    | Holding
    | Launching
    | Working(started: real, timeout: real, least: real)
    | Unwinding
    | Leaving(code: Option<nat>)
    | Replaced
    | Exited(exit: nat)
    | Raised

  predicate Terminal(status: Option<Status>) {
    status.Some?
        && (status.value.Started? || status.value.TaskCompleted? || status.value.Cancelled? || status.value.Expired?)
  }

  predicate Open(status: Option<Status>) {
    status == Some(Waiting) || status == Some(Released)
  }

  // ---- The bodies of the locked sections -----------------------------------

  predicate ValidMarks(scene: Scene) {
    && scene.marks.Some? && scene.size.Some?
    && scene.marks.value.before.Some? && scene.marks.value.hidden.Some?
    && 0 <= scene.marks.value.before.value <= scene.marks.value.hidden.value <= scene.size.value
  }

  /** The record after the body of `control`, and whether it returned. */
  function ControlBody(r: Record, action: Action, scene: Scene): (Record, bool) {
    if action == Cancel then
      if r.status == None || Open(r.status) then (r.(status := Some(Cancelled)), true)
      else (r, r.status == Some(Cancelled))
    else if r.status == Some(Waiting) && r.deadline == None then (r, false)
    else if r.status == Some(Waiting) && scene.now >= r.deadline.value then (r.(status := Some(Expired)), false)
    else if r.status != Some(Waiting) || r.pid == None || !scene.alive then (r, false)
    else if action == Ready then (r, true)
    else if !ValidMarks(scene) then (r, false)
    else (r.(status := Some(Released), hiddenOffset := scene.marks.value.hidden), true)
  }

  /** What a new process finds: whether an observation was used already, and whether its own arguments are valid. */
  datatype Start = Start(now: real, timeout: real, least: real, validArguments: bool, checkpoints: bool, output: bool)

  predicate HoldAllowed(s: Start) {
    s.validArguments && 0.0 < s.timeout <= LIMIT
  }

  predicate TaskAllowed(s: Start) {
    0.0 < s.least < s.timeout <= LIMIT
  }

  function StartBody(r: Record, pid: nat, s: Start, task: bool): (Record, bool) {
    if r != EMPTY || s.checkpoints || !s.output then (r, false)
    else (r.(status := Some(Waiting), pid := Some(pid), deadline := Some(s.now + s.timeout),
             minimum := if task then Some(s.least) else None), true)
  }

  /** One turn of a polling loop: sleep and poll again, go on to the launch, return a code, or raise. */
  datatype Turn = Sleep | Go | Return(code: nat) | Failed

  function HoldBody(r: Record, now: real): (Record, Turn) {
    if r.deadline == None || r.status == None then (r, Failed)
    else
      var seen := if now >= r.deadline.value && Open(r.status) then r.(status := Some(Expired)) else r;
      if seen.status == Some(Released) then (seen.(status := Some(Started)), Go)
      else if seen.status != Some(Waiting) then (seen, Return(if seen.status == Some(Expired) then 124 else 125))
      else (seen, Sleep)
  }

  function TaskBody(r: Record, now: real, work: Phase): (Record, Turn)
    requires work.Working?
  {
    var elapsed := now - work.started;
    if r.status == None then (r, Failed)
    else
      var seen := if elapsed >= work.timeout && Open(r.status) then r.(status := Some(Expired)) else r;
      if seen.status == Some(Released) && elapsed >= work.least then
        (seen.(status := Some(TaskCompleted), elapsed := Some(elapsed)), Return(0))
      else if !Open(seen.status) then (seen, Return(if seen.status == Some(Expired) then 124 else 125))
      else (seen, Sleep)
  }

  /** The handlers that run when a process ends early. */
  function UnwindBody(r: Record): Record {
    if Open(r.status) then r.(status := Some(Cancelled)) else r
  }

  /** The lock's `finally`: a changed record replaces the file, unless reading or writing failed. */
  function Persist(before: Record, after: Record, io: Io): (Record, bool) {
    if io == Unreadable then (before, false)
    else if after == before then (before, true)
    else if io == WriteLost then (before, false)
    else (after, io == Good)
  }

  // ---- Whole runs ------------------------------------------------------------

  datatype World = World(record: Record, phases: map<nat, Phase>, launches: nat)

  const FRESH := World(EMPTY, map[], 0)

  datatype Event =
    | Control(action: Action, scene: Scene, io: Io)
    | Hold(pid: nat, start: Start, io: Io)
    | Task(pid: nat, start: Start, io: Io)
    | Poll(pid: nat, now: real, io: Io)
    | Interrupt(pid: nat)
    | Exec(pid: nat, ok: bool)
    | Unwind(pid: nat, io: Io)

  function ControlStep(w: World, e: Event): (World, bool)
    requires e.Control?
  {
    var body := ControlBody(w.record, e.action, e.scene);
    var kept := Persist(w.record, body.0, e.io);
    (w.(record := kept.0), body.1 && kept.1)
  }

  function StartStep(w: World, pid: nat, s: Start, io: Io, task: bool): World {
    if !(if task then TaskAllowed(s) else HoldAllowed(s)) then w.(phases := w.phases[pid := Raised])
    else
      var body := StartBody(w.record, pid, s, task);
      var kept := Persist(w.record, body.0, io);
      var next := if !(body.1 && kept.1) then Raised else if task then Working(s.now, s.timeout, s.least) else Holding;
      World(kept.0, w.phases[pid := next], w.launches)
  }

  function HoldPhase(turn: Turn, written: bool): Phase {
    if !written || turn.Failed? then Unwinding
    else if turn.Sleep? then Holding
    else if turn.Go? then Launching
    else Exited(turn.code)
  }

  function TaskPhase(work: Phase, turn: Turn, written: bool): Phase {
    if !written || turn.Failed? || turn.Go? then Leaving(None)
    else if turn.Sleep? then work
    else Leaving(Some(turn.code))
  }

  function PollStep(w: World, pid: nat, now: real, io: Io): World
    requires pid in w.phases
  {
    match w.phases[pid]
    case Holding =>
      var body := HoldBody(w.record, now);
      var kept := Persist(w.record, body.0, io);
      World(kept.0, w.phases[pid := HoldPhase(body.1, kept.1)], w.launches)
    case Working(_, _, _) =>
      var body := TaskBody(w.record, now, w.phases[pid]);
      var kept := Persist(w.record, body.0, io);
      World(kept.0, w.phases[pid := TaskPhase(w.phases[pid], body.1, kept.1)], w.launches)
    case _ => w
  }

  /** A signal, or another exception, between two sections. */
  function InterruptStep(w: World, pid: nat): World
    requires pid in w.phases
  {
    match w.phases[pid]
    case Holding => w.(phases := w.phases[pid := Unwinding])
    case Launching => w.(phases := w.phases[pid := Unwinding])
    case Working(_, _, _) => w.(phases := w.phases[pid := Leaving(None)])
    case _ => w
  }

  function ExecStep(w: World, pid: nat, ok: bool): World
    requires pid in w.phases
  {
    if w.phases[pid].Launching? then
      World(w.record, w.phases[pid := if ok then Replaced else Unwinding], w.launches + 1)
    else w
  }

  function UnwindStep(w: World, pid: nat, io: Io): World
    requires pid in w.phases
  {
    if w.phases[pid].Unwinding? || w.phases[pid].Leaving? then
      var kept := Persist(w.record, UnwindBody(w.record), io);
      var next :=
        if kept.1 && w.phases[pid].Leaving? && w.phases[pid].code.Some? then Exited(w.phases[pid].code.value)
        else Raised;
      World(kept.0, w.phases[pid := next], w.launches)
    else w
  }

  /** One event; process identifiers are not used twice, and a process that never started takes no step. */
  function Step(w: World, e: Event): World {
    match e
    case Control(_, _, _) => ControlStep(w, e).0
    case Hold(pid, s, io) => if pid in w.phases then w else StartStep(w, pid, s, io, false)
    case Task(pid, s, io) => if pid in w.phases then w else StartStep(w, pid, s, io, true)
    case Poll(pid, now, io) => if pid in w.phases then PollStep(w, pid, now, io) else w
    case Interrupt(pid) => if pid in w.phases then InterruptStep(w, pid) else w
    case Exec(pid, ok) => if pid in w.phases then ExecStep(w, pid, ok) else w
    case Unwind(pid, io) => if pid in w.phases then UnwindStep(w, pid, io) else w
  }

  function Run(schedule: seq<Event>): World {
    if |schedule| == 0 then FRESH else Step(Run(schedule[..|schedule| - 1]), schedule[|schedule| - 1])
  }

  lemma RunSnoc(schedule: seq<Event>, e: Event)
    ensures Run(schedule + [e]) == Step(Run(schedule), e)
  {
    assert (schedule + [e])[..|schedule|] == schedule;
  }

  // ---- The gate as its processes change it -----------------------------------

  class Gate {
    var record: Record
    var phases: map<nat, Phase>
    var launches: nat

    ghost function Snapshot(): World
      reads this
    {
      World(record, phases, launches)
    }

    constructor ()
      ensures Snapshot() == FRESH
    {
      record, phases, launches := EMPTY, map[], 0;
    }

    /** Leaves the lock: writes the record back when it changed. */
    method Leave(state: Record, io: Io) returns (written: bool)
      modifies this`record
      ensures (record, written) == Persist(old(record), state, io)
      ensures record == old(record) || record == state
      ensures written ==> record == state
      ensures io == Good ==> written
    {
      if io == Unreadable {
        return false;
      }
      if state != record {
        if io == WriteLost {
          return false;
        }
        record := state;
        return io == Good;
      }
      return true;
    }

    method Control(action: Action, scene: Scene, io: Io) returns (returned: bool)
      modifies this`record
      ensures (Snapshot(), returned) == ControlStep(old(Snapshot()), Event.Control(action, scene, io))
    {
      var state := record;
      returned := true;
      if action == Cancel && (state.status == None || Open(state.status)) {
        state := state.(status := Some(Cancelled));
      } else if action != Cancel {
        if state.status == Some(Waiting) && state.deadline == None {
          returned := false;
        } else {
          if state.status == Some(Waiting) && scene.now >= state.deadline.value {
            state := state.(status := Some(Expired));
          }
          if state.status != Some(Waiting) || state.pid == None || !scene.alive {
            returned := false;
          } else if action == Release {
            if ValidMarks(scene) {
              state := state.(status := Some(Released), hiddenOffset := scene.marks.value.hidden);
            } else {
              returned := false;
            }
          }
        }
      } else if state.status != Some(Cancelled) {
        returned := false;
      }
      var written := Leave(state, io);
      returned := returned && written;
    }

    method HoldStart(pid: nat, s: Start, io: Io)
      requires pid !in phases
      modifies this
      ensures Snapshot() == Step(old(Snapshot()), Hold(pid, s, io))
    {
      if !s.validArguments || !(0.0 < s.timeout <= LIMIT) {
        phases := phases[pid := Raised];
        return;
      }
      var state := record;
      var free := !(state != EMPTY || s.checkpoints || !s.output);
      if free {
        state := state.(status := Some(Waiting), pid := Some(pid), deadline := Some(s.now + s.timeout));
      }
      var written := Leave(state, io);
      phases := phases[pid := if free && written then Holding else Raised];
    }

    /** One turn of the holder's loop. */
    method HoldTurn(pid: nat, now: real, io: Io)
      requires pid in phases && phases[pid].Holding?
      modifies this
      ensures Snapshot() == Step(old(Snapshot()), Poll(pid, now, io))
    {
      var state := record;
      var turn := Sleep;
      if state.deadline == None || state.status == None {
        turn := Failed;
      } else {
        if now >= state.deadline.value && Open(state.status) {
          state := state.(status := Some(Expired));
        }
        if state.status == Some(Released) {
          state := state.(status := Some(Started));
          turn := Go;
        } else if state.status != Some(Waiting) {
          turn := Return(if state.status == Some(Expired) then 124 else 125);
        }
      }
      var written := Leave(state, io);
      phases := phases[pid := HoldPhase(turn, written)];
    }

    method TaskStart(pid: nat, s: Start, io: Io)
      requires pid !in phases
      modifies this
      ensures Snapshot() == Step(old(Snapshot()), Task(pid, s, io))
    {
      if !(0.0 < s.least < s.timeout <= LIMIT) {
        phases := phases[pid := Raised];
        return;
      }
      var state := record;
      var free := !(state != EMPTY || s.checkpoints || !s.output);
      if free {
        state := state.(status := Some(Waiting), pid := Some(pid), deadline := Some(s.now + s.timeout),
                        minimum := Some(s.least));
      }
      var written := Leave(state, io);
      phases := phases[pid := if free && written then Working(s.now, s.timeout, s.least) else Raised];
    }

    /** One turn of a task process's loop. */
    method TaskTurn(pid: nat, now: real, io: Io)
      requires pid in phases && phases[pid].Working?
      modifies this
      ensures Snapshot() == Step(old(Snapshot()), Poll(pid, now, io))
    {
      var work := phases[pid];
      var state := record;
      var elapsed := now - work.started;
      var turn := Sleep;
      if state.status == None {
        turn := Failed;
      } else {
        if elapsed >= work.timeout && Open(state.status) {
          state := state.(status := Some(Expired));
        }
        if state.status == Some(Released) && elapsed >= work.least {
          state := state.(status := Some(TaskCompleted), elapsed := Some(elapsed));
          turn := Return(0);
        } else if !Open(state.status) {
          turn := Return(if state.status == Some(Expired) then 124 else 125);
        }
      }
      var written := Leave(state, io);
      phases := phases[pid := TaskPhase(work, turn, written)];
    }

    /** The handler of a holder that raised, and the `finally` of a task. */
    method End(pid: nat, io: Io)
      requires pid in phases && (phases[pid].Unwinding? || phases[pid].Leaving?)
      modifies this
      ensures Snapshot() == Step(old(Snapshot()), Unwind(pid, io))
    {
      var phase := phases[pid];
      var state := record;
      if Open(state.status) {
        state := state.(status := Some(Cancelled));
      }
      var written := Leave(state, io);
      if written && phase.Leaving? && phase.code.Some? {
        phases := phases[pid := Exited(phase.code.value)];
      } else {
        phases := phases[pid := Raised];
      }
    }

    /** The attempt to become the command. */
    method Launch(pid: nat, ok: bool)
      requires pid in phases && phases[pid].Launching?
      modifies this
      ensures Snapshot() == Step(old(Snapshot()), Exec(pid, ok))
    {
      launches := launches + 1;
      phases := phases[pid := if ok then Replaced else Unwinding];
    }

    /** A signal between two sections sends a process to its handler. */
    method Signal(pid: nat)
      requires pid in phases
      modifies this`phases
      ensures Snapshot() == Step(old(Snapshot()), Interrupt(pid))
    {
      match phases[pid]
      case Holding => phases := phases[pid := Unwinding];
      case Launching => phases := phases[pid := Unwinding];
      case Working(_, _, _) => phases := phases[pid := Leaving(None)];
      case _ =>
    }

    /** Whatever happens next; events of processes that are not there, or not at that point, change nothing. */
    method Happen(e: Event)
      modifies this
      ensures Snapshot() == Step(old(Snapshot()), e)
    {
      hide ControlBody, StartBody, HoldBody, TaskBody, UnwindBody, Persist, HoldPhase, TaskPhase, HoldAllowed,
          TaskAllowed;
      match e {
        case Control(action, scene, io) =>
          var _ := Control(action, scene, io);
        case Hold(pid, s, io) =>
          if pid !in phases {
            HoldStart(pid, s, io);
          }
        case Task(pid, s, io) =>
          if pid !in phases {
            TaskStart(pid, s, io);
          }
        case Poll(pid, now, io) =>
          if pid in phases && phases[pid].Holding? {
            HoldTurn(pid, now, io);
          } else if pid in phases && phases[pid].Working? {
            TaskTurn(pid, now, io);
          }
        case Interrupt(pid) =>
          if pid in phases {
            Signal(pid);
          }
        case Exec(pid, ok) =>
          if pid in phases && phases[pid].Launching? {
            Launch(pid, ok);
          }
        case Unwind(pid, io) =>
          if pid in phases && (phases[pid].Unwinding? || phases[pid].Leaving?) {
            End(pid, io);
          }
      }
    }
  }

  /** The gate's own sections, interleaved in any way, go through the runs that the properties speak of. */
  method Drive(schedule: seq<Event>) returns (gate: Gate)
    ensures fresh(gate) && gate.Snapshot() == Run(schedule)
  {
    hide Step, Run;
    gate := new Gate();
    assert schedule[..0] == [];
    NothingRun();
    for k := 0 to |schedule|
      invariant fresh(gate) && gate.Snapshot() == Run(schedule[..k])
    {
      gate.Happen(schedule[k]);
      RunSnoc(schedule[..k], schedule[k]);
      assert schedule[..k] + [schedule[k]] == schedule[..k + 1];
    }
    assert schedule[..|schedule|] == schedule;
  }

  lemma NothingRun()
    ensures Run([]) == FRESH
  {
  }
}
