/** The authentication driver: one run per connection layer, against an arbitrary server and user. */
module AuthDriver {
  import opened Basics
  import opened AuthStateMachine
  import opened AuthTrace

  function FlagsOf(machine: StateMachine): Flags
    reads machine
  {
    Flags(machine.publicKeyAttempted, machine.passwordAttempted, machine.interactiveAttempted)
  }

  function KeyOf(machine: StateMachine): Endpoint {
    Endpoint(machine.hasPrivateKey, machine.keyRequiresPassphrase)
  }

  class Session {
    const env: Environment
    var clock: nat
    var next: nat
    var trace: seq<Event>
    ghost var ticks: seq<nat>

    ghost predicate Valid()
      reads this
    {
      && NextAfter(trace) <= next <= |env.posted| && Safe(env.posted, trace)
      && FromEnvironment(env, trace, ticks, clock) && |ticks| == |trace|
    }

    /** Every command taken from the queue since the last use has been used. */
    predicate CaughtUp()
      reads this
    {
      next == NextAfter(trace)
    }

    ghost function Now(): Stand
      reads this
    {
      Stand(trace, ticks, next, clock)
    }

    /** The run is over, without success, for the reason its last step gives. */
    ghost predicate Over(layer: Layer, key: Endpoint, o: Outcome)
      reads this
    {
      o != Authenticated && Explained(env, Now(), layer, key, o) && Undecided(trace, layer)
    }

    constructor (env: Environment)
      ensures Valid() && CaughtUp() && this.env == env && trace == []
    {
      this.env, clock, next, trace, ticks := env, 0, 0, [], [];
    }

    /** Waits for a command of the layer, dropping those posted for the other one. */
    method WaitForCommand(layer: Layer) returns (r: Result<nat, Outcome>)
      requires Valid() && CaughtUp() && Asking(Now(), layer) && LastTick(Now()) == clock
      modifies this`clock, this`next
      ensures Valid() && next >= old(next)
      ensures r.Ok? ==> Handed(env, Now(), layer) && r.value == next - 1
      ensures r.Ok? ==> old(next) <= r.value && Takes(env.posted, old(next), r.value, layer)
      ensures r.Err? ==> Abandoned(env, Now(), layer, r.error)
    {
      hide Safe;
      while true
        invariant Valid() && old(next) <= next
        invariant clock == old(clock) + (next - old(next))
        invariant forall k :: old(next) <= k < next ==> env.posted[k].layer != layer
        invariant forall t :: old(clock) < t <= clock ==> env.wait(t).Receive?
        decreases |env.posted| - next
      {
        clock := clock + 1;
        FromLater(env, trace, ticks, clock - 1, clock);
        match env.wait(clock) {
          case Receive =>
            if next == |env.posted| {
              return Err(CancelledOutcome);
            }
            next := next + 1;
            if env.posted[next - 1].layer == layer {
              return Ok(next - 1);
            }
          case Disconnect => return Err(CancelledOutcome);
          case Deadline => return Err(FailedOutcome(Timeout));
        }
      }
    }

    /** Shows a question to the user. */
    method Ask(layer: Layer, question: Question) returns (shown: bool)
      requires Valid() && Requesting(Now(), layer) && LastTick(Now()) == clock
      requires ShowsChallenge(env, trace[|trace| - 1], clock, Asked(layer, question))
      modifies this`clock, this`trace, this`ticks
      ensures Valid() && clock == old(clock) + 1
      ensures shown <==> env.callback(clock)
      ensures shown ==> trace == old(trace) + [Asked(layer, question)] && ticks == old(ticks) + [clock]
      ensures !shown ==> trace == old(trace) && ticks == old(ticks)
    {
      hide Safe;
      clock := clock + 1;
      shown := env.callback(clock);
      if shown {
        SafeAppend(env.posted, trace, Asked(layer, question));
        FromAppend(env, trace, ticks, old(clock), Asked(layer, question), clock);
        ticks := ticks + [clock];
        trace := trace + [Asked(layer, question)];
      } else {
        FromLater(env, trace, ticks, old(clock), clock);
      }
    }

    /** A request may go out: it hands over the command just taken, or none is outstanding. */
    predicate Sendable(layer: Layer, sent: Sent)
      reads this
    {
      var e := Requested(layer, sent, None);
      && Authorised(env.posted, if |trace| > 0 then trace[|trace| - 1] else e, e)
      && match Used(e)
         case None => CaughtUp()
         case Some(u) => next == u + 1 && Takes(env.posted, NextAfter(trace), u, layer)
    }

    /** One request answered with success or failure. */
    method Request(layer: Layer, sent: Sent) returns (r: Result<AuthReply, Outcome>)
      requires Valid() && !IsInteractive(sent) && Sendable(layer, sent)
      modifies this`clock, this`trace, this`ticks
      ensures Valid() && CaughtUp()
      ensures trace == old(trace) + [Requested(layer, sent, if r.Ok? then Some(r.value) else None)]
      ensures ticks == old(ticks) + [clock]
      ensures r.Err? ==> Unanswered(env, Now(), layer, r.error)
    {
      hide Safe, Takes, FromEnvironment, ShownAs, ChallengeWithinLimits, NextAfter, Authorised;
      clock := clock + 1;
      var exchange := env.server(clock);
      var e := Requested(layer, sent, if exchange.Completed? then Some(exchange.reply) else None);
      Record(layer, sent, e);
      match exchange {
        case Completed(reply) => return Ok(reply);
        case Failed => return Err(FailedOutcome(Exchanging));
        case Cancelled => return Err(CancelledOutcome);
        case TimedOut => return Err(FailedOutcome(Timeout));
      }
    }

    /** The interactive form of a request: a request for information counts as no final answer yet. */
    method RequestInteractive(layer: Layer, sent: Sent) returns (r: Result<InteractiveReply, Outcome>)
      requires Valid() && IsInteractive(sent) && Sendable(layer, sent)
      modifies this`clock, this`trace, this`ticks
      ensures Valid() && CaughtUp()
      ensures trace == old(trace) + [Requested(layer, sent, if r.Ok? then FinalReply(r.value) else None)]
      ensures ticks == old(ticks) + [clock]
      ensures r.Ok? ==> Heard(layer, r.value)
      ensures r.Err? ==> Unanswered(env, Now(), layer, r.error)
    {
      hide Safe, Takes, FromEnvironment, ShownAs, ChallengeWithinLimits, NextAfter, Authorised;
      clock := clock + 1;
      var exchange := env.interactive(clock);
      var e := Requested(layer, sent, if exchange.Completed? then FinalReply(exchange.reply) else None);
      Record(layer, sent, e);
      match exchange {
        case Completed(reply) => return Ok(reply);
        case Failed => return Err(FailedOutcome(Exchanging));
        case Cancelled => return Err(CancelledOutcome);
        case TimedOut => return Err(FailedOutcome(Timeout));
      }
    }

    /** Appends a request with what the environment answered at this tick. */
    method Record(layer: Layer, sent: Sent, e: Event)
      requires clock > 0 && NextAfter(trace) <= next <= |env.posted| && Safe(env.posted, trace)
      requires FromEnvironment(env, trace, ticks, clock - 1)
      requires e.Requested? && e.layer == layer && e.sent == sent && Sendable(layer, sent) && AnswerAt(env, e, clock)
      modifies this`trace, this`ticks
      ensures Valid() && CaughtUp() && trace == old(trace) + [e] && ticks == old(ticks) + [clock]
    {
      hide Safe, Takes, Authorised, AnswerAt, FromEnvironment, NextAfter;
      SafeAppend(env.posted, trace, e) by {
        SentOnly(env.posted, if |trace| > 0 then trace[|trace| - 1] else e, layer, sent, e);
      }
      FromAppend(env, trace, ticks, clock - 1, e, clock);
      trace, ticks := trace + [e], ticks + [clock];
    }

    /** Between two selections: the trace tells exactly the stage and the methods the state machine counts. */
    ghost predicate Running(layer: Layer, machine: StateMachine)
      reads this, machine
    {
      && Valid() && CaughtUp() && machine.Valid()
      && Progress(trace, layer, KeyOf(machine), machine.authStages, machine.Untried(), machine.interactiveRounds)
      && Settled(trace, layer, machine.authStages, FlagsOf(machine))
    }

    /** The method due has been marked; its request is about to go out. */
    ghost predicate Starting(layer: Layer, machine: StateMachine, m: Method)
      reads this, machine
    {
      && Valid() && machine.Idle()
      && Progress(trace, layer, KeyOf(machine), machine.authStages, machine.Untried() + 1, machine.interactiveRounds)
      && Level(trace, layer, machine.authStages, Without(FlagsOf(machine), m)) && machine.Attempted(m)
      && Due(trace, layer, KeyOf(machine), m)
    }

    /** The credential of the method due is being asked for; the method is not marked yet. */
    ghost predicate Choosing(layer: Layer, machine: StateMachine, m: Method)
      reads this, machine
    {
      && Valid() && machine.Valid() && machine.pendingChallenge.None?
      && Progress(trace, layer, KeyOf(machine), machine.authStages, machine.Untried(), machine.interactiveRounds)
      && Level(trace, layer, machine.authStages, FlagsOf(machine)) && !machine.Attempted(m)
      && Due(trace, layer, KeyOf(machine), m)
    }

    /** The last event is a request of the layer, just made. */
    ghost predicate JustHeard(layer: Layer)
      reads this
    {
      Requesting(Now(), layer) && LastTick(Now()) == clock
    }

    /** The answer to hand to the next selection is that of the last request. */
    ghost predicate Answered(layer: Layer, reply: AuthReply)
      reads this
    {
      JustHeard(layer) && Last(Now()).reply == Some(reply)
    }

    /** Sends the plain request of the method due. */
    method StartMethod(layer: Layer, machine: StateMachine, m: Method, sent: Sent)
      returns (r: Result<AuthReply, Outcome>)
      requires Starting(layer, machine, m) && Sendable(layer, sent) && !IsInteractive(sent)
      requires AttemptOf(Requested(layer, sent, None), layer) == Some(m)
      requires KeyRight(Requested(layer, sent, None), layer, KeyOf(machine))
      modifies this`clock, this`trace, this`ticks
      ensures Running(layer, machine) && machine.Idle() && Within(trace, layer, KeyOf(machine))
      ensures Extends(old(trace), trace, layer)
      ensures r.Ok? ==> Answered(layer, r.value)
      ensures r.Err? ==> Over(layer, KeyOf(machine), r.error)
    {
      hide Safe, FromEnvironment, Progress, Level, Settled, Due, LastReply, Within, Unanswered, Takes, Explained;
      ghost var was := trace;
      r := Request(layer, sent);
      Started(was, layer, KeyOf(machine), trace[|was|], machine.authStages, machine.Untried(),
              machine.interactiveRounds, FlagsOf(machine));
      if r.Err? {
        Fails(env, Now(), layer, KeyOf(machine), r.error);
      }
    }

    /** Asks the user for the credential of the method due and waits for the layer's command. */
    method AskAndWait(layer: Layer, machine: StateMachine, question: Question, m: Method)
      returns (r: Result<nat, Outcome>)
      requires Choosing(layer, machine, m) && CaughtUp() && JustHeard(layer)
      requires || (question == AskPassword && m == Password)
               || (question == AskPassphrase && m == PublicKey && machine.keyRequiresPassphrase)
      modifies this`clock, this`next, this`trace, this`ticks
      ensures Choosing(layer, machine, m) && Extends(old(trace), trace, layer) && next >= old(next)
      ensures r.Ok? ==> Handed(env, Now(), layer) && Last(Now()).question == question && r.value == next - 1
      ensures r.Err? ==> Over(layer, KeyOf(machine), r.error)
    {
      hide Safe, FromEnvironment, Progress, Level, Due, LastReply, Abandoned, Handed, Takes, Explained, Undelivered,
        ShownAs, ChallengeWithinLimits;
      AskStep(trace, layer, KeyOf(machine), question, machine.authStages, machine.Untried(),
              machine.interactiveRounds, FlagsOf(machine));
      DueUndecided(trace, layer, KeyOf(machine), m);
      var shown := Ask(layer, question);
      if !shown {
        NotTaken(env, Now(), layer, KeyOf(machine), m);
        r := Err(FailedOutcome(CallbackDelivery));
      } else {
        AskTakesNone(trace);
        r := WaitForCommand(layer);
      }
      if r.Err? {
        Fails(env, Now(), layer, KeyOf(machine), r.error);
      }
    }

    method PassphraseFlow(layer: Layer, machine: StateMachine) returns (r: Result<AuthReply, Outcome>)
      requires Choosing(layer, machine, PublicKey) && machine.waitingFor == Some(ForPassphrase)
      requires CaughtUp() && JustHeard(layer)
      modifies this`clock, this`next, this`trace, this`ticks, machine
      ensures Valid() && machine.Valid() && Within(trace, layer, KeyOf(machine))
      ensures Extends(old(trace), trace, layer) && next >= old(next)
      ensures r.Ok? ==> Running(layer, machine) && machine.Idle() && Answered(layer, r.value)
      ensures r.Ok? ==> machine.authStages == old(machine.authStages) && machine.Untried() < old(machine.Untried())
      ensures r.Err? ==> Over(layer, KeyOf(machine), r.error)
    {
      hide Safe, FromEnvironment, Progress, Level, Settled, Due, LastReply, Within, Takes, Explained, Handed;
      var command := AskAndWait(layer, machine, AskPassphrase, PublicKey);
      DueUndecided(trace, layer, KeyOf(machine), PublicKey);
      Bounds(trace, layer, KeyOf(machine), machine.authStages, machine.Untried(), machine.interactiveRounds);
      if command.Err? {
        return Err(command.error);
      }
      if env.posted[command.value].credential != Passphrase {
        Misfits(env, Now(), layer, KeyOf(machine));
        return Err(FailedOutcome(Protocol(UnexpectedCredential)));
      }
      Answering(env, Now(), layer, PublicKeyRequest(Some(command.value)));
      var action := machine.SubmitPrivateKeyPassphrase();
      if action.Fail? {
        assert false;
        return Err(FailedOutcome(Protocol(UnexpectedCredential)));
      }
      r := StartMethod(layer, machine, PublicKey, PublicKeyRequest(Some(command.value)));
    }

    method PasswordFlow(layer: Layer, machine: StateMachine) returns (r: Result<AuthReply, Outcome>)
      requires Choosing(layer, machine, Password) && machine.waitingFor == Some(ForPassword)
      requires CaughtUp() && JustHeard(layer)
      modifies this`clock, this`next, this`trace, this`ticks, machine
      ensures Valid() && machine.Valid() && Within(trace, layer, KeyOf(machine))
      ensures Extends(old(trace), trace, layer) && next >= old(next)
      ensures r.Ok? ==> Running(layer, machine) && machine.Idle() && Answered(layer, r.value)
      ensures r.Ok? ==> machine.authStages == old(machine.authStages) && machine.Untried() < old(machine.Untried())
      ensures r.Err? ==> Over(layer, KeyOf(machine), r.error)
    {
      hide Safe, FromEnvironment, Progress, Level, Settled, Due, LastReply, Within, Takes, Explained, Handed;
      var command := AskAndWait(layer, machine, AskPassword, Password);
      DueUndecided(trace, layer, KeyOf(machine), Password);
      Bounds(trace, layer, KeyOf(machine), machine.authStages, machine.Untried(), machine.interactiveRounds);
      if command.Err? {
        return Err(command.error);
      }
      if env.posted[command.value].credential != PasswordText {
        Misfits(env, Now(), layer, KeyOf(machine));
        return Err(FailedOutcome(Protocol(UnexpectedCredential)));
      }
      Answering(env, Now(), layer, PasswordRequest(Some(command.value)));
      var submitted := machine.SubmitPassword();
      if submitted.Err? {
        assert false;
        return Err(FailedOutcome(Protocol(UnexpectedCredential)));
      }
      r := StartMethod(layer, machine, Password, PasswordRequest(Some(command.value)));
    }

    /** The last request was answered with this challenge. */
    ghost predicate Challenged(layer: Layer, challenge: InteractiveReply)
      reads this
    {
      && JustHeard(layer) && Challenges(env, layer, Last(Now()), clock)
      && env.interactive(clock).reply == challenge && Last(Now()).reply == None
    }

    /** A challenge has been shown, and its round is open. */
    ghost predicate Presented(layer: Layer, machine: StateMachine)
      reads this, machine
    {
      && Valid() && CaughtUp() && machine.Valid() && machine.waitingFor.None?
      && Asking(Now(), layer) && LastTick(Now()) == clock && Last(Now()).question.AskResponses?
      && machine.pendingChallenge == Some((Last(Now()).question.round, Last(Now()).question.prompts))
      && Progress(trace, layer, KeyOf(machine), machine.authStages, machine.Untried(), machine.interactiveRounds)
      && Level(trace, layer, machine.authStages, FlagsOf(machine))
      && Responds(trace, layer) < machine.interactiveRounds && Undecided(trace, layer)
    }

    method ShowChallenge(layer: Layer, machine: StateMachine, name: Text, instructions: Text, prompts: seq<Prompt>)
      returns (failed: Option<Outcome>)
      requires Running(layer, machine) && machine.Idle() && machine.interactiveAttempted && Undecided(trace, layer)
      requires Challenged(layer, InfoRequest(name, instructions, prompts))
      modifies this`clock, this`trace, this`ticks
      modifies machine`pendingChallenge, machine`nextRoundId, machine`interactiveRounds
      ensures Valid() && machine.Valid() && Within(trace, layer, KeyOf(machine)) && Extends(old(trace), trace, layer)
      ensures failed.None? ==>
              Presented(layer, machine) && machine.interactiveRounds == old(machine.interactiveRounds) + 1
      ensures machine.interactiveRounds >= old(machine.interactiveRounds)
      ensures failed.Some? ==> Over(layer, KeyOf(machine), failed.value)
    {
      hide Safe, FromEnvironment, Progress, Level, LastReply, Within, Takes, Explained, ChallengeWithinLimits, Shown,
        Sanitize, Responds, Rounds;
      ghost var was, rounds := trace, machine.interactiveRounds;
      Bounds(was, layer, KeyOf(machine), machine.authStages, machine.Untried(), rounds);
      ChallengeFails(env, Now(), layer, KeyOf(machine));
      var action := machine.PresentChallenge(name, instructions, prompts);
      if action.Fail? {
        return Some(FailedOutcome(Protocol(action.failure)));
      }
      if !action.PresentChallenge? {
        assert false;
        return Some(FailedOutcome(Protocol(UnexpectedChallenge)));
      }
      var question := AskResponses(action.challenge.round, |action.challenge.prompts|, action.challenge);
      ShownCount(prompts);
      AskStep(was, layer, KeyOf(machine), question, machine.authStages, machine.Untried(), rounds, FlagsOf(machine));
      RespondsBound(was, layer, KeyOf(machine), machine.authStages, machine.Untried(), rounds);
      var shown := Ask(layer, question);
      if !shown {
        ChallengeFails(env, Now(), layer, KeyOf(machine));
        return Some(FailedOutcome(CallbackDelivery));
      }
      AskTakesNone(trace);
      Bounds(trace, layer, KeyOf(machine), machine.authStages, machine.Untried(), rounds + 1);
      return None;
    }

    /** Waits for the layer's responses, and sends them if they fit the round. */
    method SendResponses(layer: Layer, machine: StateMachine) returns (r: Result<InteractiveReply, Outcome>)
      requires Presented(layer, machine) && Within(trace, layer, KeyOf(machine))
      modifies this`clock, this`next, this`trace, this`ticks, machine`pendingChallenge
      ensures Valid() && machine.Valid() && Within(trace, layer, KeyOf(machine))
      ensures Extends(old(trace), trace, layer) && next >= old(next)
      ensures r.Ok? ==> Running(layer, machine) && machine.Idle() && Heard(layer, r.value)
      ensures r.Ok? && FinalReply(r.value).None? ==> Undecided(trace, layer)
      ensures r.Err? ==> Over(layer, KeyOf(machine), r.error)
    {
      hide Safe, FromEnvironment, Progress, Level, Settled, LastReply, Within, Takes, Explained, Responds,
        ResponsesWithinLimits, Abandoned, Handed, Unanswered, Session.Heard;
      ghost var asked := trace;
      var command := WaitForCommand(layer);
      if command.Err? {
        Fails(env, Now(), layer, KeyOf(machine), command.error);
        return Err(command.error);
      }
      var credential := env.posted[command.value].credential;
      if !credential.Responses? {
        Misfits(env, Now(), layer, KeyOf(machine));
        return Err(FailedOutcome(Protocol(UnexpectedCredential)));
      }
      var valid := machine.ValidateResponses(credential.round, credential.lengths);
      if valid.Err? {
        Misfits(env, Now(), layer, KeyOf(machine));
        return Err(FailedOutcome(Protocol(valid.error)));
      }
      var sent := InteractiveResponses(credential.round, |credential.lengths|, Some(command.value));
      Answering(env, Now(), layer, sent);
      r := RequestInteractive(layer, sent);
      Responded(asked, layer, KeyOf(machine), trace[|asked|], machine.authStages, machine.Untried(),
                machine.interactiveRounds, FlagsOf(machine));
      if r.Err? {
        Fails(env, Now(), layer, KeyOf(machine), r.error);
      }
    }

    /** The interactive answer is that of the last request. */
    ghost predicate Heard(layer: Layer, reply: InteractiveReply)
      reads this
    {
      if FinalReply(reply).Some? then Answered(layer, FinalReply(reply).value) else Challenged(layer, reply)
    }

    /** One round: shows the challenge, waits for the layer's responses, and sends them if they fit it. */
    method RespondRound(layer: Layer, machine: StateMachine, name: Text, instructions: Text, prompts: seq<Prompt>)
      returns (r: Result<InteractiveReply, Outcome>)
      requires Running(layer, machine) && machine.Idle() && machine.interactiveAttempted && Undecided(trace, layer)
      requires Challenged(layer, InfoRequest(name, instructions, prompts))
      modifies this`clock, this`next, this`trace, this`ticks
      modifies machine`pendingChallenge, machine`nextRoundId, machine`interactiveRounds
      ensures Valid() && machine.Valid() && Within(trace, layer, KeyOf(machine))
      ensures Extends(old(trace), trace, layer) && next >= old(next)
      ensures r.Ok? ==> Running(layer, machine) && machine.Idle() && Heard(layer, r.value)
      ensures r.Ok? && FinalReply(r.value).None? ==> Undecided(trace, layer)
      ensures r.Ok? ==> machine.interactiveRounds == old(machine.interactiveRounds) + 1
      ensures machine.interactiveRounds >= old(machine.interactiveRounds)
      ensures r.Err? ==> Over(layer, KeyOf(machine), r.error)
    {
      hide Safe, FromEnvironment, Progress, Level, Settled, LastReply, Within, Takes, Explained, Responds;
      var failed := ShowChallenge(layer, machine, name, instructions, prompts);
      if failed.Some? {
        return Err(failed.value);
      }
      r := SendResponses(layer, machine);
    }

    /** Sends the first request of an exchange. */
    method StartInteractive(layer: Layer, machine: StateMachine) returns (response: Result<InteractiveReply, Outcome>)
      requires Starting(layer, machine, KeyboardInteractive) && CaughtUp()
      modifies this`clock, this`trace, this`ticks
      ensures Running(layer, machine) && machine.Idle() && Within(trace, layer, KeyOf(machine))
      ensures Extends(old(trace), trace, layer)
      ensures response.Ok? ==> Heard(layer, response.value)
      ensures response.Ok? && FinalReply(response.value).None? ==> Undecided(trace, layer)
      ensures response.Err? ==> Over(layer, KeyOf(machine), response.error)
    {
      hide Safe, FromEnvironment, Progress, Level, Settled, Due, LastReply, Within, Takes, Explained, Unanswered,
        Session.Heard;
      ghost var was := trace;
      response := RequestInteractive(layer, InteractiveStart);
      Started(was, layer, KeyOf(machine), trace[|was|], machine.authStages, machine.Untried(),
              machine.interactiveRounds, FlagsOf(machine));
      if response.Err? {
        Fails(env, Now(), layer, KeyOf(machine), response.error);
      }
    }

    /** The whole keyboard-interactive exchange of one attempt. */
    method InteractiveFlow(layer: Layer, machine: StateMachine) returns (r: Result<AuthReply, Outcome>)
      requires Starting(layer, machine, KeyboardInteractive) && CaughtUp()
      modifies this`clock, this`next, this`trace, this`ticks
      modifies machine`pendingChallenge, machine`nextRoundId, machine`interactiveRounds
      ensures Valid() && machine.Valid() && Within(trace, layer, KeyOf(machine))
      ensures Extends(old(trace), trace, layer) && next >= old(next)
      ensures r.Ok? ==> Running(layer, machine) && machine.Idle() && Answered(layer, r.value)
      ensures r.Err? ==> Over(layer, KeyOf(machine), r.error)
    {
      hide Safe, FromEnvironment, Progress, Settled, LastReply, Within, Takes, Explained;
      var response := StartInteractive(layer, machine);
      while true
        invariant Valid() && machine.Valid() && Within(trace, layer, KeyOf(machine))
        invariant Extends(old(trace), trace, layer) && next >= old(next)
        invariant response.Ok? ==> Running(layer, machine) && machine.Idle() && machine.interactiveAttempted
        invariant response.Ok? ==> Heard(layer, response.value)
        invariant response.Ok? && FinalReply(response.value).None? ==> Undecided(trace, layer)
        invariant response.Err? ==> Over(layer, KeyOf(machine), response.error)
        decreases MAX_INTERACTIVE_ROUNDS - machine.interactiveRounds, response.Ok?
      {
        if response.Err? {
          return Err(response.error);
        }
        match response.value {
          case InteractiveSuccess => return Ok(Success);
          case InteractiveFailure(offered, partialSuccess) => return Ok(AuthReply.Failure(offered, partialSuccess));
          case InfoRequest(name, instructions, prompts) =>
            response := RespondRound(layer, machine, name, instructions, prompts);
        }
      }
    }

    /** One iteration of the driver's loop: selects a method and carries it out. */
    method Advance(layer: Layer, machine: StateMachine, result: AuthReply) returns (r: Result<AuthReply, Outcome>)
      requires result.Failure? && Running(layer, machine) && machine.Idle() && Answered(layer, result)
      modifies this`clock, this`next, this`trace, this`ticks, machine
      ensures Valid() && machine.Valid() && Within(trace, layer, KeyOf(machine))
      ensures Extends(old(trace), trace, layer) && next >= old(next)
      ensures r.Ok? ==> Running(layer, machine) && machine.Idle() && Answered(layer, r.value)
      ensures r.Ok? ==> machine.Measure() < old(machine.Measure())
      ensures r.Err? ==> Over(layer, KeyOf(machine), r.error)
    {
      hide Safe, FromEnvironment, Progress, Settled, LastReply, Within, Takes, Explained;
      var action := Select(layer, machine, result);
      match action {
        case AttemptPublicKey =>
          r := StartMethod(layer, machine, PublicKey, PublicKeyRequest(None));
        case RequestPrivateKeyPassphrase =>
          r := PassphraseFlow(layer, machine);
        case RequestPassword =>
          r := PasswordFlow(layer, machine);
        case StartKeyboardInteractive =>
          r := InteractiveFlow(layer, machine);
        case Fail(failure) =>
          r := Err(FailedOutcome(Protocol(failure)));
        case PresentChallenge(_) =>
          assert false;
          r := Err(FailedOutcome(Protocol(UnexpectedChallenge)));
      }
    }

    /** Lets the state machine choose the method due, or give up. */
    method Select(layer: Layer, machine: StateMachine, result: AuthReply) returns (action: AuthStateMachine.Action)
      requires result.Failure? && Running(layer, machine) && machine.Idle() && Answered(layer, result)
      modifies machine
      ensures machine.Valid() && Within(trace, layer, KeyOf(machine)) && !action.PresentChallenge?
      ensures action == AttemptPublicKey ==> Starting(layer, machine, PublicKey) && !machine.keyRequiresPassphrase
      ensures action == RequestPrivateKeyPassphrase ==>
                Choosing(layer, machine, PublicKey) && machine.waitingFor == Some(ForPassphrase)
      ensures action == RequestPassword ==>
              Choosing(layer, machine, Password) && machine.waitingFor == Some(ForPassword)
      ensures action == StartKeyboardInteractive ==> Starting(layer, machine, KeyboardInteractive)
      ensures action.Fail? ==> Over(layer, KeyOf(machine), FailedOutcome(Protocol(action.failure)))
      ensures action == RequestPrivateKeyPassphrase || action == RequestPassword ==>
                machine.Measure() <= old(machine.Measure())
      ensures action == AttemptPublicKey || action == StartKeyboardInteractive ==>
                machine.Measure() < old(machine.Measure())
    {
      hide Safe, FromEnvironment, TriedInStage, Orderly, LastReply, Within, Takes, Explained, Due, NothingBetter, Rank;
      ghost var stages, rounds, untried := machine.authStages, machine.interactiveRounds, machine.Untried();
      ghost var flags := if result.partialSuccess then NONE_TRIED else FlagsOf(machine);
      LastReplyIs(trace, layer);
      Bounds(trace, layer, KeyOf(machine), stages, untried, rounds);
      action := machine.SelectNextMethod(result.offered, result.partialSuccess);
      if !(result.partialSuccess && stages == MAX_AUTH_STAGES) {
        Choices(trace, layer, KeyOf(machine), result, machine.authStages, flags);
      }
      if action.Fail? {
        assert GivenUp(Now(), layer, KeyOf(machine), FailedOutcome(Protocol(action.failure)));
        Fails(env, Now(), layer, KeyOf(machine), FailedOutcome(Protocol(action.failure)));
      }
    }

    /** One layer's authentication: ends against any server, within the limits, with a safe trace, and for a reason. */
    method RunAuthentication(layer: Layer, hasPrivateKey: bool, keyRequiresPassphrase: bool) returns (outcome: Outcome)
      requires Valid() && CaughtUp() && Untouched(trace, layer)
      modifies this`clock, this`next, this`trace, this`ticks
      ensures Valid() && Extends(old(trace), trace, layer) && next >= old(next)
      ensures Within(trace, layer, Endpoint(hasPrivateKey, keyRequiresPassphrase))
      ensures Explained(env, Now(), layer, Endpoint(hasPrivateKey, keyRequiresPassphrase), outcome)
      ensures outcome == Authenticated <==> LastReply(trace, layer) == Some(Success)
      ensures outcome == Authenticated ==> CaughtUp()
    {
      hide Safe, FromEnvironment, Progress, Settled, LastReply, Within, Takes, Explained, Untouched;
      var machine := new StateMachine(hasPrivateKey, keyRequiresPassphrase);
      var first := Open(layer, machine);
      if first.Err? {
        return first.error;
      }
      var result := first.value;
      outcome := CancelledOutcome;
      var running := true;
      while running
        invariant fresh(machine) && Valid() && machine.Valid() && Within(trace, layer, KeyOf(machine))
        invariant Extends(old(trace), trace, layer) && next >= old(next)
        invariant running ==> Running(layer, machine) && machine.Idle() && Answered(layer, result)
        invariant !running && outcome == Authenticated ==>
                    CaughtUp() && LastReply(trace, layer) == Some(Success)
                    && Explained(env, Now(), layer, KeyOf(machine), Authenticated)
        invariant !running && outcome != Authenticated ==> Over(layer, KeyOf(machine), outcome)
        decreases running, machine.Measure()
      {
        if result == Success {
          LastReplyIs(trace, layer);
          IsGranted(env, Now(), layer, KeyOf(machine));
          outcome, running := Authenticated, false;
        } else {
          var step := Advance(layer, machine, result);
          match step {
            case Ok(reply) => result := reply;
            case Err(o) => outcome, running := o, false;
          }
        }
      }
    }

    /** The opening request, which tells the client what the server offers. */
    method Open(layer: Layer, machine: StateMachine) returns (r: Result<AuthReply, Outcome>)
      requires Valid() && CaughtUp() && Untouched(trace, layer)
      requires machine.Idle() && machine.authStages == 1 && machine.interactiveRounds == 0
               && FlagsOf(machine) == NONE_TRIED
      modifies this`clock, this`trace, this`ticks
      ensures Running(layer, machine) && Within(trace, layer, KeyOf(machine)) && Extends(old(trace), trace, layer)
      ensures r.Ok? ==> Answered(layer, r.value)
      ensures r.Err? ==> Over(layer, KeyOf(machine), r.error)
    {
      hide Safe, FromEnvironment, Progress, Settled, LastReply, Within, Takes, Explained, Untouched, Unanswered;
      ghost var was := trace;
      UntouchedCounts(was, layer);
      r := Request(layer, NoneRequest);
      NoneStep(was, layer, KeyOf(machine), trace[|was|]);
      Bounds(trace, layer, KeyOf(machine), machine.authStages, machine.Untried(), machine.interactiveRounds);
      LastReplyAppend(was, trace[|was|], layer);
      if r.Err? {
        Fails(env, Now(), layer, KeyOf(machine), r.error);
      }
    }
  }

  /** What a request may hand over does not depend on its answer. */
  lemma SentOnly(posted: seq<Posted>, asked: Event, layer: Layer, sent: Sent, e: Event)
    requires e.Requested? && e.layer == layer && e.sent == sent
    ensures Used(e) == Used(Requested(layer, sent, None))
    ensures Authorised(posted, asked, e) <==> Authorised(posted, asked, Requested(layer, sent, None))
    ensures !Authorised(posted, e, e) || Used(e) == None
    ensures Authorised(posted, Requested(layer, sent, None), Requested(layer, sent, None)) <==> Authorised(posted, e, e)
  {
  }

  lemma AskTakesNone(trace: seq<Event>)
    requires |trace| > 0 && trace[|trace| - 1].Asked?
    ensures NextAfter(trace) == NextAfter(trace[..|trace| - 1])
  {
  }

  lemma DueUndecided(trace: seq<Event>, layer: Layer, key: Endpoint, m: Method)
    requires Due(trace, layer, key, m)
    ensures Undecided(trace, layer)
  {
  }

  lemma ShownCount(prompts: seq<Prompt>)
    ensures |Shown(prompts)| == |prompts|
  {
  }

  lemma RespondsBound(trace: seq<Event>, layer: Layer, key: Endpoint, stages: nat, untried: nat, rounds: nat)
    requires Progress(trace, layer, key, stages, untried, rounds)
    ensures Responds(trace, layer) <= rounds
  {
  }

  /** Authenticates the jump host, if there is one, and then the target over the same command queue. The ghost result
      tells where the run stands at its end. */
  method AuthenticateRoute(env: Environment, jump: Option<Endpoint>, target: Endpoint)
    returns (outcome: Outcome, trace: seq<Event>, ghost end: Stand)
    ensures end.trace == trace && NextAfter(trace) <= end.next <= |env.posted|
    ensures Safe(env.posted, trace) && FromEnvironment(env, trace, end.ticks, end.clock)
    ensures if jump.Some? && Untouched(trace, Target)
            then Explained(env, end, Jump, jump.value, outcome) else Explained(env, end, Target, target, outcome)
    ensures outcome == Authenticated <==> LastReply(trace, Target) == Some(Success)
    ensures Within(trace, Target, target) || (Untouched(trace, Target) && outcome != Authenticated)
    ensures if jump.Some? then Within(trace, Jump, jump.value) else Untouched(trace, Jump)
    ensures !Untouched(trace, Target) && jump.Some? ==> exists i :: 0 <= i < |trace| && JumpDone(trace, i)
  {
    hide Safe, Within, LastReply, Explained, FromEnvironment;
    var session := new Session(env);
    ghost var jumped: seq<Event> := [];
    if jump.Some? {
      outcome := session.RunAuthentication(Jump, jump.value.hasPrivateKey, jump.value.keyRequiresPassphrase);
      jumped := session.trace;
      if outcome != Authenticated {
        UntouchedCounts(session.trace, Target);
        return outcome, session.trace, session.Now();
      }
    }
    outcome := session.RunAuthentication(Target, target.hasPrivateKey, target.keyRequiresPassphrase);
    trace, end := session.trace, session.Now();
    EndsOn(env, end, Target, target, outcome);
    if jump.Some? {
      OtherLayerKept(jumped, trace, Target, Jump, jump.value);
      var i := SuccessAt(jumped, Jump);
      assert trace[i] == jumped[i] && JumpDone(trace, i);
    }
  }

  /** Event `i` is the jump host's success, and nothing of the target's precedes it. */
  predicate JumpDone(trace: seq<Event>, i: nat) {
    && i < |trace| && trace[i].layer == Jump && trace[i].Requested? && trace[i].reply == Some(Success)
    && forall k :: 0 <= k <= i ==> trace[k].layer == Jump
  }

  lemma {:induction false} SuccessAt(trace: seq<Event>, layer: Layer) returns (i: nat)
    requires LastReply(trace, layer) == Some(Success)
    ensures i < |trace| && trace[i].Requested? && trace[i].layer == layer && trace[i].reply == Some(Success)
  {
    var last := trace[|trace| - 1];
    if last.Requested? && last.layer == layer && last.reply.Some? {
      return |trace| - 1;
    }
    i := SuccessAt(trace[..|trace| - 1], layer);
  }
}
