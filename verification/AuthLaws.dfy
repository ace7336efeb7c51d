/** What a right authentication record says, kind by kind. */
module AuthLaws {
  import opened Basics
  import opened AuthStateMachine
  import opened AuthTrace

  /** Every credential in a safe record was posted for the layer it goes to, as the kind it is used as, and answers the
      question shown just before; responses come from one command for that round, one for each prompt and within the
      limits. */
  lemma CredentialsFit(posted: seq<Posted>, trace: seq<Event>, i: nat)
    requires Safe(posted, trace) && i < |trace| && trace[i].Requested?
    ensures trace[i].sent.PasswordRequest? || trace[i].sent.InteractiveResponses? ==> trace[i].sent.used.Some?
    ensures Used(trace[i]).Some? ==> i > 0 && Used(trace[i]).value < |posted| && trace[i - 1].Asked?
                                     && trace[i - 1].layer == trace[i].layer == posted[Used(trace[i]).value].layer
    ensures match trace[i].sent
            case PublicKeyRequest(Some(u)) =>
              trace[i - 1].question == AskPassphrase && posted[u].credential == Passphrase
            case PasswordRequest(Some(u)) =>
              trace[i - 1].question == AskPassword && posted[u].credential == PasswordText
            case InteractiveResponses(round, count, Some(u)) =>
              && trace[i - 1].question.AskResponses? && trace[i - 1].question.round == round
              && trace[i - 1].question.prompts == count
              && posted[u].credential.Responses? && posted[u].credential.round == round
              && |posted[u].credential.lengths| == count
              && (forall k :: 0 <= k < count ==> posted[u].credential.lengths[k] <= 4096)
              && Sum(posted[u].credential.lengths) <= 16384
            case _ => true
  {
    hide Takes, NextAfter;
    assert AuthorisedAt(posted, trace, i);
  }

  /** Every request and question in a genuine record got the answer recorded at its own tick; a challenge shown was just
      received from the server of the layer, within 16 prompts, and reads as the server wrote it. */
  lemma AnswersAreReal(env: Environment, trace: seq<Event>, ticks: seq<nat>, clock: nat, i: nat)
    requires FromEnvironment(env, trace, ticks, clock) && i < |trace|
    ensures trace[i].Asked? ==> env.callback(ticks[i])
    ensures trace[i].Requested? && trace[i].reply.Some? ==>
              if trace[i].sent.InteractiveStart? || trace[i].sent.InteractiveResponses? then
                && env.interactive(ticks[i]).Completed?
                && match env.interactive(ticks[i]).reply
                   case InteractiveSuccess => trace[i].reply == Some(Success)
                   case InteractiveFailure(offered, partial) =>
                     trace[i].reply == Some(AuthReply.Failure(offered, partial))
                   case InfoRequest(_, _, _) => false
              else env.server(ticks[i]) == Completed(trace[i].reply.value)
    ensures trace[i].Asked? && trace[i].question.AskResponses? ==>
              && i > 0 && trace[i - 1].layer == trace[i].layer && env.interactive(ticks[i - 1]).Completed?
              && env.interactive(ticks[i - 1]).reply.InfoRequest?
              && var c := env.interactive(ticks[i - 1]).reply;
                 && |c.prompts| == trace[i].question.prompts <= 16
                 && ShownAs(c.name, c.instructions, c.prompts, trace[i].question.shown)
  {
    hide ShownAs;
    assert GenuineAt(env, trace, ticks, i);
  }

  /** The outcome of a run and the step it met last. */
  lemma OutcomesMean(env: Environment, s: Stand, layer: Layer, key: Endpoint, o: Outcome)
    requires Explained(env, s, layer, key, o)
    ensures |s.ticks| == |s.trace| > 0 && Last(s).layer == layer
    ensures var last, sent := Last(s), LastTick(s) == s.clock && Last(s).Requested?;
            var interactive := sent && (last.sent.InteractiveStart? || last.sent.InteractiveResponses?);
            match o
            case Authenticated => sent && last.reply == Some(Success)
            case CancelledOutcome =>
              || (interactive && env.interactive(s.clock).Cancelled?)
              || (sent && !interactive && env.server(s.clock).Cancelled?)
              || (last.Asked? && env.wait(s.clock).Disconnect?)
              || (last.Asked? && env.wait(s.clock).Receive? && s.next == |env.posted|)
            case FailedOutcome(Exchanging) =>
              || (interactive && env.interactive(s.clock).Failed?)
              || (sent && !interactive && env.server(s.clock).Failed?)
            case FailedOutcome(Timeout) =>
              || (interactive && env.interactive(s.clock).TimedOut?)
              || (sent && !interactive && env.server(s.clock).TimedOut?)
              || (last.Asked? && env.wait(s.clock).Deadline?)
            case FailedOutcome(CallbackDelivery) => !env.callback(s.clock)
            case FailedOutcome(Protocol(f)) => ProtocolMeans(env, s, layer, key, f)
  {
    hide Due, NothingBetter, Rounds, Partials, TriedInStage, ChallengeFits, NextAfter, ResponsesWithinLimits;
  }

  /** The last command taken, when it answers the last question badly. */
  predicate BadAnswer(env: Environment, s: Stand, layer: Layer) {
    && |s.trace| > 0 && Last(s).Asked? && 0 < s.next <= |env.posted| && env.posted[s.next - 1].layer == layer
  }

  ghost predicate ProtocolMeans(env: Environment, s: Stand, layer: Layer, key: Endpoint, f: AuthStateMachine.Failure)
    requires |s.ticks| == |s.trace| > 0
  {
    match f
    case Rejected =>
      && Last(s).Requested? && Last(s).reply.Some? && Last(s).reply.value.Failure?
      && (Last(s).reply.value.partialSuccess || AnyTried(s.trace, layer)) && NothingBetter(s.trace, layer, key, 3)
    case NoSupportedMethod =>
      && Last(s).Requested? && Last(s).reply.Some? && Last(s).reply.value.Failure?
      && !Last(s).reply.value.partialSuccess && !AnyTried(s.trace, layer) && NothingBetter(s.trace, layer, key, 3)
    case UnexpectedCredential =>
      && BadAnswer(env, s, layer)
      && (match Last(s).question
          case AskPassphrase => env.posted[s.next - 1].credential != Passphrase
          case AskPassword => env.posted[s.next - 1].credential != PasswordText
          case AskResponses(_, _, _) => !env.posted[s.next - 1].credential.Responses?)
    case StaleChallenge =>
      && BadAnswer(env, s, layer) && Last(s).question.AskResponses? && env.posted[s.next - 1].credential.Responses?
      && env.posted[s.next - 1].credential.round != Last(s).question.round
    case ResponseCountMismatch =>
      && BadAnswer(env, s, layer) && Last(s).question.AskResponses? && env.posted[s.next - 1].credential.Responses?
      && |env.posted[s.next - 1].credential.lengths| != Last(s).question.prompts
    case ProtocolLimitExceeded =>
      || (BadAnswer(env, s, layer) && env.posted[s.next - 1].credential.Responses?
          && !ResponsesWithinLimits(env.posted[s.next - 1].credential.lengths))
      || Partials(s.trace, layer) == 8
      || |Rounds(s.trace, layer)| == 8
      || (env.interactive(s.clock).Completed? && env.interactive(s.clock).reply.InfoRequest?
          && !ChallengeFits(env, s.clock))
    case UnexpectedChallenge => false
  }

  /** A method is tried only when every better one that the server offers has been tried in this stage: public key
      before keyboard-interactive before password. */
  lemma Preference(trace: seq<Event>, layer: Layer, key: Endpoint, i: nat)
    requires Orderly(trace, layer, key) && i < |trace|
    ensures AttemptOf(trace[i], layer).Some? ==>
              var m, reply := AttemptOf(trace[i], layer).value, LastReply(trace[..i], layer);
              && reply.Some? && reply.value.Failure? && m in reply.value.offered
              && !TriedInStage(trace[..i], layer, m) && Partials(trace[..i], layer) < 8
    ensures AttemptOf(trace[i], layer) in {Some(KeyboardInteractive), Some(Password)} ==>
              key.hasPrivateKey && OfferedBy(LastReply(trace[..i], layer), PublicKey) ==>
                TriedInStage(trace[..i], layer, PublicKey)
    ensures AttemptOf(trace[i], layer) == Some(Password) ==>
              OfferedBy(LastReply(trace[..i], layer), KeyboardInteractive) ==>
                TriedInStage(trace[..i], layer, KeyboardInteractive)
    ensures AttemptOf(trace[i], layer) == Some(PublicKey) ==>
              key.hasPrivateKey && (trace[i].sent.used.Some? <==> key.keyRequiresPassphrase)
  {
    hide LastReply, TriedInStage, Partials;
    assert OrderlyAt(trace, layer, key, i);
  }
}
