/** What an authentication run looks like from outside, and what makes such a record right. */
module AuthTrace {
  import opened Basics
  import opened AuthStateMachine

  const MAX_ATTEMPTS: nat := 24
  const MAX_EXCHANGES: nat := 33

  datatype Layer = Jump | Target

  /** What the user has to authenticate with on one host. */
  datatype Endpoint = Endpoint(hasPrivateKey: bool, keyRequiresPassphrase: bool)

  datatype Credential = Passphrase | PasswordText | Responses(round: nat, lengths: seq<nat>)

  /** A command posted by the user interface, for one layer. */
  datatype Posted = Posted(layer: Layer, credential: Credential)

  datatype AuthReply = Success | Failure(offered: seq<Method>, partialSuccess: bool)

  datatype InteractiveReply =
    | InteractiveSuccess
    | InteractiveFailure(offered: seq<Method>, partialSuccess: bool)
    | InfoRequest(name: Text, instructions: Text, prompts: seq<Prompt>)

  /** How waiting for an exchange ends. */
  datatype Exchange<+T> = Completed(reply: T) | Failed | Cancelled | TimedOut

  /** How one turn of waiting for a command goes. */
  datatype Wait = Receive | Disconnect | Deadline

  /** Everything outside the driver: a server, a user and a transport, each answering as it likes at each point. */
  datatype Environment = Environment(
    server: nat -> Exchange<AuthReply>,
    interactive: nat -> Exchange<InteractiveReply>,
    posted: seq<Posted>,
    wait: nat -> Wait,
    callback: nat -> bool)

  /** What is sent to the server; `used` is the position of the posted command it came from. */
  datatype Sent =
    | NoneRequest
    | PublicKeyRequest(used: Option<nat>)
    | PasswordRequest(used: Option<nat>)
    | InteractiveStart
    | InteractiveResponses(round: nat, count: nat, used: Option<nat>)

  datatype Question = AskPassphrase | AskPassword | AskResponses(round: nat, prompts: nat, shown: Challenge)

  /** The run as seen from outside: questions shown to the user, and requests with the server's answer. */
  datatype Event =
    | Asked(layer: Layer, question: Question)
    | Requested(layer: Layer, sent: Sent, reply: Option<AuthReply>)

  datatype Outcome = Authenticated | CancelledOutcome | FailedOutcome(reason: Reason)

  datatype Reason = Exchanging | Timeout | CallbackDelivery | Protocol(failure: AuthStateMachine.Failure)

  // ---- Credentials ---------------------------------------------------------

  function Used(e: Event): Option<nat> {
    match e
    case Requested(_, PublicKeyRequest(u), _) => u
    case Requested(_, PasswordRequest(u), _) => u
    case Requested(_, InteractiveResponses(_, _, u), _) => u
    case _ => None
  }

  /** Why a command is no answer to a question. */
  function Refusal(question: Question, c: Credential): (r: Option<AuthStateMachine.Failure>)
    ensures r != Some(UnexpectedChallenge)
  {
    match question
    case AskPassphrase => if c.Passphrase? then None else Some(UnexpectedCredential)
    case AskPassword => if c.PasswordText? then None else Some(UnexpectedCredential)
    case AskResponses(round, prompts, _) =>
      if !c.Responses? then Some(UnexpectedCredential)
      else if c.round != round then Some(StaleChallenge)
      else if |c.lengths| != prompts then Some(ResponseCountMismatch)
      else if !ResponsesWithinLimits(c.lengths) then Some(ProtocolLimitExceeded)
      else None
  }

  /** The question a request with a credential answers. */
  predicate AnswerTo(question: Question, sent: Sent) {
    match sent
    case PublicKeyRequest(Some(_)) => question == AskPassphrase
    case PasswordRequest(Some(_)) => question == AskPassword
    case InteractiveResponses(round, count, Some(_)) =>
      question.AskResponses? && question.round == round && question.prompts == count
    case _ => false
  }

  /** The request `e`, made right after `asked`, hands over what was asked for and was posted for its layer. */
  predicate Authorised(posted: seq<Posted>, asked: Event, e: Event)
    requires e.Requested?
  {
    match Used(e)
    case Some(u) =>
      && asked.Asked? && asked.layer == e.layer && AnswerTo(asked.question, e.sent)
      && u < |posted| && posted[u].layer == e.layer && Refusal(asked.question, posted[u].credential) == None
    case None => e.sent.NoneRequest? || e.sent.InteractiveStart? || e.sent.PublicKeyRequest?
  }

  /** The queue position behind the last command handed over. */
  function NextAfter(trace: seq<Event>): nat {
    if |trace| == 0 then 0
    else
      match Used(trace[|trace| - 1])
      case Some(u) => u + 1
      case None => NextAfter(trace[..|trace| - 1])
  }

  /** Position `u` is the first from `from` on that holds a command of the layer. */
  predicate Takes(posted: seq<Posted>, from: nat, u: nat, layer: Layer) {
    && from <= u < |posted| && posted[u].layer == layer
    && forall k :: from <= k < u ==> posted[k].layer != layer
  }

  predicate AuthorisedAt(posted: seq<Posted>, trace: seq<Event>, i: nat)
    requires i < |trace|
  {
    trace[i].Requested? ==>
      && Authorised(posted, if i > 0 then trace[i - 1] else trace[i], trace[i])
      && (Used(trace[i]).Some? ==> Takes(posted, NextAfter(trace[..i]), Used(trace[i]).value, trace[i].layer))
  }

  /** No credential leaves without a matching question, and each is the layer's first one behind those used before. */
  ghost predicate Safe(posted: seq<Posted>, trace: seq<Event>) {
    forall i :: 0 <= i < |trace| ==> AuthorisedAt(posted, trace, i)
  }

  lemma SafeAppend(posted: seq<Posted>, trace: seq<Event>, e: Event)
    requires Safe(posted, trace)
    requires e.Requested? ==> Authorised(posted, if |trace| > 0 then trace[|trace| - 1] else e, e)
    requires Used(e).Some? ==> Takes(posted, NextAfter(trace), Used(e).value, e.layer)
    ensures Safe(posted, trace + [e])
    ensures NextAfter(trace + [e]) == if Used(e).Some? then Used(e).value + 1 else NextAfter(trace)
  {
    hide Used, Authorised;
    var longer := trace + [e];
    assert longer[..|trace|] == trace;
    forall i | 0 <= i < |longer| ensures AuthorisedAt(posted, longer, i) {
      assert longer[..i] == trace[..i];
      assert trace[..|trace|] == trace;
      if i < |trace| {
        assert AuthorisedAt(posted, trace, i);
      }
    }
  }

  lemma SafePrefix(posted: seq<Posted>, trace: seq<Event>, n: nat)
    requires n <= |trace| && Safe(posted, trace)
    ensures Safe(posted, trace[..n])
  {
    hide AuthorisedAt, Used, Authorised;
    forall i | 0 <= i < n ensures AuthorisedAt(posted, trace[..n], i) {
      AuthorisedPrefix(posted, trace, n, i);
    }
  }

  lemma AuthorisedPrefix(posted: seq<Posted>, trace: seq<Event>, n: nat, i: nat)
    requires i < n <= |trace| && Safe(posted, trace)
    ensures AuthorisedAt(posted, trace[..n], i)
  {
    hide Used, Authorised;
    assert AuthorisedAt(posted, trace, i);
    assert trace[..n][..i] == trace[..i];
  }

  lemma {:induction false} UsedBefore(posted: seq<Posted>, trace: seq<Event>, i: nat)
    requires Safe(posted, trace) && i < |trace| && Used(trace[i]).Some?
    ensures Used(trace[i]).value < NextAfter(trace)
    decreases |trace|
  {
    hide Authorised, Used;
    var n := |trace| - 1;
    if i < n {
      SafePrefix(posted, trace, n);
      UsedBefore(posted, trace[..n], i);
      assert AuthorisedAt(posted, trace, n);
      UsedOnlyByRequests(trace[n]);
    }
  }

  lemma UsedOnlyByRequests(e: Event)
    ensures Used(e).Some? ==> e.Requested?
  {
  }

  /** Credentials go out in the order in which they were posted, so none goes out twice. */
  lemma UsedOnce(posted: seq<Posted>, trace: seq<Event>, i: nat, j: nat)
    requires Safe(posted, trace) && i < j < |trace| && Used(trace[i]).Some? && Used(trace[j]).Some?
    ensures Used(trace[i]).value < Used(trace[j]).value
  {
    hide Authorised, Used;
    SafePrefix(posted, trace, j);
    UsedBefore(posted, trace[..j], i);
    assert AuthorisedAt(posted, trace, j);
    UsedOnlyByRequests(trace[j]);
  }

  // ---- Counting ------------------------------------------------------------

  /** The method a request starts on the layer, if it starts one. */
  function AttemptOf(e: Event, layer: Layer): Option<Method> {
    if !e.Requested? || e.layer != layer then None
    else match e.sent
      case PublicKeyRequest(_) => Some(PublicKey)
      case PasswordRequest(_) => Some(Password)
      case InteractiveStart => Some(KeyboardInteractive)
      case _ => None
  }

  /** The method an event belongs to: a question for its credential counts as well. */
  function ChosenOf(e: Event, layer: Layer): Option<Method> {
    if e.Asked? && e.layer == layer && e.question.AskPassphrase? then Some(PublicKey)
    else if e.Asked? && e.layer == layer && e.question.AskPassword? then Some(Password)
    else AttemptOf(e, layer)
  }

  predicate IsRespond(e: Event, layer: Layer) {
    e.Requested? && e.layer == layer && e.sent.InteractiveResponses?
  }

  predicate PartialSuccess(e: Event, layer: Layer) {
    e.Requested? && e.layer == layer && e.reply.Some? && e.reply.value.Failure? && e.reply.value.partialSuccess
  }

  function Attempts(trace: seq<Event>, layer: Layer): nat {
    if |trace| == 0 then 0
    else Attempts(trace[..|trace| - 1], layer) + if AttemptOf(trace[|trace| - 1], layer).Some? then 1 else 0
  }

  function Responds(trace: seq<Event>, layer: Layer): nat {
    if |trace| == 0 then 0
    else Responds(trace[..|trace| - 1], layer) + if IsRespond(trace[|trace| - 1], layer) then 1 else 0
  }

  function Partials(trace: seq<Event>, layer: Layer): nat {
    if |trace| == 0 then 0
    else Partials(trace[..|trace| - 1], layer) + if PartialSuccess(trace[|trace| - 1], layer) then 1 else 0
  }

  function Requests(trace: seq<Event>, layer: Layer): nat {
    if |trace| == 0 then 0
    else
      var last := trace[|trace| - 1];
      Requests(trace[..|trace| - 1], layer) + if last.Requested? && last.layer == layer then 1 else 0
  }

  /** The round numbers of the challenges shown, in order. */
  function Rounds(trace: seq<Event>, layer: Layer): seq<nat> {
    if |trace| == 0 then []
    else
      var last := trace[|trace| - 1];
      Rounds(trace[..|trace| - 1], layer) +
      if last.Asked? && last.layer == layer && last.question.AskResponses? then [last.question.round] else []
  }

  function OneTo(n: nat): (r: seq<nat>)
    ensures |r| == n
  {
    seq(n, k => k + 1)
  }

  lemma TraceAppend(trace: seq<Event>, e: Event, layer: Layer)
    ensures Attempts(trace + [e], layer) == Attempts(trace, layer) + if AttemptOf(e, layer).Some? then 1 else 0
    ensures Responds(trace + [e], layer) == Responds(trace, layer) + if IsRespond(e, layer) then 1 else 0
    ensures Partials(trace + [e], layer) == Partials(trace, layer) + if PartialSuccess(e, layer) then 1 else 0
    ensures Requests(trace + [e], layer) ==
            Requests(trace, layer) + if e.Requested? && e.layer == layer then 1 else 0
    ensures Rounds(trace + [e], layer) ==
            Rounds(trace, layer)
            + if e.Asked? && e.layer == layer && e.question.AskResponses? then [e.question.round] else []
  {
    assert (trace + [e])[..|trace|] == trace;
  }

  // ---- Method order and stages (RFC 4252, section 5.1) ---------------------

  /** The last answer of the layer's server. */
  function LastReply(trace: seq<Event>, layer: Layer): Option<AuthReply> {
    if |trace| == 0 then None
    else
      var last := trace[|trace| - 1];
      if last.Requested? && last.layer == layer && last.reply.Some? then last.reply
      else LastReply(trace[..|trace| - 1], layer)
  }

  /** The layer's server has not said success. */
  predicate Undecided(trace: seq<Event>, layer: Layer) {
    LastReply(trace, layer) != Some(Success)
  }

  lemma LastReplyAppend(trace: seq<Event>, e: Event, layer: Layer)
    ensures LastReply(trace + [e], layer) ==
            if e.Requested? && e.layer == layer && e.reply.Some? then e.reply else LastReply(trace, layer)
  {
    assert (trace + [e])[..|trace|] == trace;
  }

  lemma LastReplyIs(trace: seq<Event>, layer: Layer)
    requires |trace| > 0 && trace[|trace| - 1].Requested? && trace[|trace| - 1].layer == layer
    requires trace[|trace| - 1].reply.Some?
    ensures LastReply(trace, layer) == trace[|trace| - 1].reply
  {
  }

  predicate OfferedBy(reply: Option<AuthReply>, m: Method) {
    reply.Some? && reply.value.Failure? && m in reply.value.offered
  }

  predicate OfferedAt(trace: seq<Event>, layer: Layer, i: nat)
    requires i < |trace|
  {
    var m := AttemptOf(trace[i], layer); m.Some? ==> OfferedBy(LastReply(trace[..i], layer), m.value)
  }

  /** A method is tried only when the server's last failure offered it. */
  ghost predicate OnlyOffered(trace: seq<Event>, layer: Layer) {
    forall i :: 0 <= i < |trace| ==> OfferedAt(trace, layer, i)
  }

  ghost predicate NoPartialSince(trace: seq<Event>, layer: Layer, i: nat) {
    forall k :: i <= k < |trace| ==> !PartialSuccess(trace[k], layer)
  }

  /** A method tried in the current stage, that is since the last partial success. */
  ghost predicate TriedInStage(trace: seq<Event>, layer: Layer, m: Method) {
    exists i :: 0 <= i < |trace| && AttemptOf(trace[i], layer) == Some(m) && NoPartialSince(trace, layer, i)
  }

  ghost predicate PartialBetween(trace: seq<Event>, layer: Layer, i: nat, j: nat)
    requires j <= |trace|
  {
    exists k :: i <= k < j && PartialSuccess(trace[k], layer)
  }

  predicate SameAttempt(a: Event, b: Event, layer: Layer) {
    AttemptOf(a, layer).Some? && AttemptOf(a, layer) == AttemptOf(b, layer)
  }

  /** A method is tried again only after a partial success in between. */
  ghost predicate OncePerStage(trace: seq<Event>, layer: Layer) {
    forall i, j :: 0 <= i < j < |trace| && SameAttempt(trace[i], trace[j], layer) ==> PartialBetween(trace, layer, i, j)
  }

  /** A stage knows the methods tried in it, and a partial success opens the next one. */
  lemma StageAppend(trace: seq<Event>, layer: Layer, e: Event, m: Method)
    ensures TriedInStage(trace + [e], layer, m) <==>
            !PartialSuccess(e, layer) && (TriedInStage(trace, layer, m) || AttemptOf(e, layer) == Some(m))
  {
    hide AttemptOf, PartialSuccess;
    var longer, n := trace + [e], |trace|;
    assert longer[n] == e;
    if TriedInStage(longer, layer, m) {
      var i :| 0 <= i < |longer| && AttemptOf(longer[i], layer) == Some(m) && NoPartialSince(longer, layer, i);
      if i < n {
        assert trace[i] == longer[i];
        assert forall k :: i <= k < n ==> trace[k] == longer[k];
        assert NoPartialSince(trace, layer, i);
      }
    }
    if !PartialSuccess(e, layer) && AttemptOf(e, layer) == Some(m) {
      assert NoPartialSince(longer, layer, n);
    }
    if !PartialSuccess(e, layer) && TriedInStage(trace, layer, m) {
      var i :| 0 <= i < n && AttemptOf(trace[i], layer) == Some(m) && NoPartialSince(trace, layer, i);
      assert longer[i] == trace[i];
      assert forall k :: i <= k < n ==> longer[k] == trace[k];
      assert NoPartialSince(longer, layer, i);
    }
  }

  /** The order of preference. */
  function Rank(m: Method): nat {
    match m case PublicKey => 0 case KeyboardInteractive => 1 case Password => 2
  }

  const ANY_RANK := 3

  /** Every method offered last and preferred to the given rank has been tried in this stage, or lacks its key. */
  ghost predicate NothingBetter(trace: seq<Event>, layer: Layer, key: Endpoint, rank: nat) {
    forall m: Method :: OfferedBy(LastReply(trace, layer), m) && Rank(m) < rank ==>
      TriedInStage(trace, layer, m) || (m == PublicKey && !key.hasPrivateKey)
  }

  /** The method to try next: offered last, new in this stage, and the best of its kind; the stages are not used up. */
  ghost predicate Due(trace: seq<Event>, layer: Layer, key: Endpoint, m: Method) {
    && OfferedBy(LastReply(trace, layer), m) && !TriedInStage(trace, layer, m)
    && (m == PublicKey ==> key.hasPrivateKey)
    && NothingBetter(trace, layer, key, Rank(m))
    && Partials(trace, layer) < MAX_AUTH_STAGES
  }

  /** A passphrase is asked for and used exactly when the key has one. */
  predicate KeyRight(e: Event, layer: Layer, key: Endpoint) {
    && (e.Asked? && e.layer == layer && e.question.AskPassphrase? ==> key.keyRequiresPassphrase)
    && (e.Requested? && e.layer == layer && e.sent.PublicKeyRequest? ==>
          (e.sent.used.Some? <==> key.keyRequiresPassphrase))
  }

  ghost predicate OrderlyAt(trace: seq<Event>, layer: Layer, key: Endpoint, i: nat)
    requires i < |trace|
  {
    && (ChosenOf(trace[i], layer).Some? ==> Due(trace[..i], layer, key, ChosenOf(trace[i], layer).value))
    && KeyRight(trace[i], layer, key)
  }

  /** Whatever is tried or asked for is the method due at that point. */
  ghost predicate Orderly(trace: seq<Event>, layer: Layer, key: Endpoint) {
    forall i :: 0 <= i < |trace| ==> OrderlyAt(trace, layer, key, i)
  }

  lemma OrderlyAppend(trace: seq<Event>, layer: Layer, key: Endpoint, e: Event)
    requires Orderly(trace, layer, key) && KeyRight(e, layer, key)
    requires ChosenOf(e, layer).Some? ==> Due(trace, layer, key, ChosenOf(e, layer).value)
    ensures Orderly(trace + [e], layer, key)
  {
    hide Due, ChosenOf, KeyRight;
    var longer := trace + [e];
    forall i | 0 <= i < |longer| ensures OrderlyAt(longer, layer, key, i) {
      assert longer[..i] == if i < |trace| then trace[..i] else trace;
      if i < |trace| {
        assert OrderlyAt(trace, layer, key, i);
      }
    }
  }

  /** In an orderly record a method is tried only when offered, and once in a stage. */
  lemma OrderlyMeans(trace: seq<Event>, layer: Layer, key: Endpoint)
    requires Orderly(trace, layer, key)
    ensures OnlyOffered(trace, layer) && OncePerStage(trace, layer)
  {
    hide OfferedBy, PartialSuccess, AttemptOf, KeyRight, NothingBetter, LastReply, Partials;
    forall i | 0 <= i < |trace| ensures OfferedAt(trace, layer, i) {
      assert OrderlyAt(trace, layer, key, i);
      AttemptIsChosen(trace[i], layer);
    }
    forall i, j | 0 <= i < j < |trace| && SameAttempt(trace[i], trace[j], layer)
      ensures PartialBetween(trace, layer, i, j)
    {
      assert OrderlyAt(trace, layer, key, j);
      AttemptIsChosen(trace[j], layer);
      var stage := trace[..j];
      assert stage[i] == trace[i] && !NoPartialSince(stage, layer, i);
      var k :| i <= k < j && PartialSuccess(stage[k], layer);
      assert PartialSuccess(trace[k], layer);
    }
  }

  lemma AttemptIsChosen(e: Event, layer: Layer)
    ensures AttemptOf(e, layer).Some? ==> ChosenOf(e, layer) == AttemptOf(e, layer)
  {
  }

  // ---- What a run has done so far -------------------------------------------

  /** The trace grew by events of one layer only. */
  ghost predicate Extends(was: seq<Event>, now: seq<Event>, layer: Layer) {
    was <= now && forall i :: |was| <= i < |now| ==> now[i].layer == layer
  }

  /** The limits, order and preference of one run, whatever its outcome. */
  ghost predicate Within(trace: seq<Event>, layer: Layer, key: Endpoint) {
    && Attempts(trace, layer) <= MAX_ATTEMPTS && Responds(trace, layer) <= MAX_INTERACTIVE_ROUNDS
    && Partials(trace, layer) <= MAX_AUTH_STAGES
    && Requests(trace, layer) == 1 + Attempts(trace, layer) + Responds(trace, layer) <= MAX_EXCHANGES
    && |Rounds(trace, layer)| <= MAX_INTERACTIVE_ROUNDS && Rounds(trace, layer) == OneTo(|Rounds(trace, layer)|)
    && OnlyOffered(trace, layer) && OncePerStage(trace, layer) && Orderly(trace, layer, key)
  }

  /** What one layer's run has done so far, against its state machine's counters. */
  ghost predicate Progress(trace: seq<Event>, layer: Layer, key: Endpoint, stages: nat, untried: nat, rounds: nat) {
    && Attempts(trace, layer) + untried <= 3 * stages
    && Responds(trace, layer) <= rounds
    && Partials(trace, layer) <= stages
    && Requests(trace, layer) == 1 + Attempts(trace, layer) + Responds(trace, layer)
    && Rounds(trace, layer) == OneTo(rounds)
    && Orderly(trace, layer, key)
  }

  lemma Bounds(trace: seq<Event>, layer: Layer, key: Endpoint, stages: nat, untried: nat, rounds: nat)
    requires Progress(trace, layer, key, stages, untried, rounds)
    requires stages <= MAX_AUTH_STAGES && rounds <= MAX_INTERACTIVE_ROUNDS
    ensures Within(trace, layer, key) && |Rounds(trace, layer)| == rounds
  {
    hide Attempts, Responds, Requests, Rounds, Partials, Orderly, OnlyOffered, OncePerStage;
    OrderlyMeans(trace, layer, key);
  }

  /** The methods a state machine counts as tried. */
  datatype Flags = Flags(publicKey: bool, password: bool, interactive: bool)

  const NONE_TRIED := Flags(false, false, false)

  predicate Has(flags: Flags, m: Method) {
    match m
    case PublicKey => flags.publicKey
    case Password => flags.password
    case KeyboardInteractive => flags.interactive
  }

  function Without(flags: Flags, m: Method): Flags {
    match m
    case PublicKey => flags.(publicKey := false)
    case Password => flags.(password := false)
    case KeyboardInteractive => flags.(interactive := false)
  }

  /** The state machine's stage and its flags are exactly those of the trace. */
  ghost predicate Level(trace: seq<Event>, layer: Layer, stages: nat, flags: Flags) {
    && Partials(trace, layer) + 1 == stages
    && forall m: Method :: TriedInStage(trace, layer, m) <==> Has(flags, m)
  }

  /** A partial success has come that the state machine has not been told of. */
  predicate Pending(trace: seq<Event>, layer: Layer) {
    |trace| > 0 && PartialSuccess(trace[|trace| - 1], layer)
  }

  /** The same between two selections, when a partial success may be pending. */
  ghost predicate Settled(trace: seq<Event>, layer: Layer, stages: nat, flags: Flags) {
    if Pending(trace, layer) then Level(trace, layer, stages + 1, NONE_TRIED) else Level(trace, layer, stages, flags)
  }

  /** Sending the first request of the method due. */
  lemma StartStep(trace: seq<Event>, layer: Layer, key: Endpoint, e: Event, stages: nat, untried: nat, rounds: nat,
                  flags: Flags)
    requires AttemptOf(e, layer).Some? && Progress(trace, layer, key, stages, untried + 1, rounds)
    requires var m := AttemptOf(e, layer).value;
             Has(flags, m) && Level(trace, layer, stages, Without(flags, m)) && Due(trace, layer, key, m)
    requires KeyRight(e, layer, key)
    ensures Progress(trace + [e], layer, key, stages, untried, rounds) && Settled(trace + [e], layer, stages, flags)
  {
    hide TriedInStage, Orderly, Attempts, Responds, Requests, Rounds, Partials, AttemptOf, PartialSuccess, Due;
    TraceAppend(trace, e, layer);
    AttemptIsChosen(e, layer);
    OrderlyAppend(trace, layer, key, e);
    EventIs(e, layer);
    assert (trace + [e])[|trace|] == e;
    forall m: Method
      ensures TriedInStage(trace + [e], layer, m) <==> !PartialSuccess(e, layer) && Has(flags, m)
    {
      StageAppend(trace, layer, e, m);
    }
  }

  /** After that request the run is within its limits, and not decided without an answer. */
  lemma Started(trace: seq<Event>, layer: Layer, key: Endpoint, e: Event, stages: nat, untried: nat, rounds: nat,
                flags: Flags)
    requires AttemptOf(e, layer).Some? && Progress(trace, layer, key, stages, untried + 1, rounds)
    requires var m := AttemptOf(e, layer).value;
             Has(flags, m) && Level(trace, layer, stages, Without(flags, m)) && Due(trace, layer, key, m)
    requires KeyRight(e, layer, key) && stages <= MAX_AUTH_STAGES && rounds <= MAX_INTERACTIVE_ROUNDS
    ensures Progress(trace + [e], layer, key, stages, untried, rounds) && Settled(trace + [e], layer, stages, flags)
    ensures Within(trace + [e], layer, key) && (e.reply == None ==> Undecided(trace + [e], layer))
  {
    hide Progress, Level, Settled, Within, NothingBetter, LastReply, TriedInStage, Partials;
    StartStep(trace, layer, key, e, stages, untried, rounds, flags);
    Bounds(trace + [e], layer, key, stages, untried, rounds);
    LastReplyAppend(trace, e, layer);
  }

  lemma EventIs(e: Event, layer: Layer)
    ensures AttemptOf(e, layer).Some? ==> e.Requested? && e.layer == layer && !IsRespond(e, layer)
    ensures IsRespond(e, layer) ==> ChosenOf(e, layer) == None
    ensures e.Asked? || e.layer != layer ==> AttemptOf(e, layer) == None && !PartialSuccess(e, layer)
    ensures e.Requested? ==> ChosenOf(e, layer) == AttemptOf(e, layer)
  {
  }

  /** Showing a question; a challenge takes the next round number. */
  lemma AskStep(trace: seq<Event>, layer: Layer, key: Endpoint, question: Question, stages: nat, untried: nat,
                rounds: nat, flags: Flags)
    requires Progress(trace, layer, key, stages, untried, rounds) && Level(trace, layer, stages, flags)
    requires question.AskResponses? ==> question.round == rounds + 1
    requires question.AskPassphrase? ==> Due(trace, layer, key, PublicKey) && key.keyRequiresPassphrase
    requires question.AskPassword? ==> Due(trace, layer, key, Password)
    ensures var longer := trace + [Asked(layer, question)];
            && Progress(longer, layer, key, stages, untried, if question.AskResponses? then rounds + 1 else rounds)
            && Level(longer, layer, stages, flags) && LastReply(longer, layer) == LastReply(trace, layer)
            && Responds(longer, layer) == Responds(trace, layer)
            && forall m: Method :: Due(trace, layer, key, m) ==> Due(longer, layer, key, m)
  {
    hide TriedInStage, Orderly, LastReply, Attempts, Responds, Requests, Rounds, Partials, OfferedBy;
    var e := Asked(layer, question);
    TraceAppend(trace, e, layer);
    LastReplyAppend(trace, e, layer);
    assert OneTo(rounds) + [rounds + 1] == OneTo(rounds + 1);
    forall m: Method ensures TriedInStage(trace + [e], layer, m) <==> TriedInStage(trace, layer, m) {
      StageAppend(trace, layer, e, m);
    }
    OrderlyAppend(trace, layer, key, e) by {
      hide Due;
    }
  }

  /** Sending responses to the round just shown. */
  lemma RespondStep(trace: seq<Event>, layer: Layer, key: Endpoint, e: Event, stages: nat, untried: nat, rounds: nat,
                    flags: Flags)
    requires IsRespond(e, layer) && Progress(trace, layer, key, stages, untried, rounds)
    requires Level(trace, layer, stages, flags) && Responds(trace, layer) < rounds
    ensures Progress(trace + [e], layer, key, stages, untried, rounds) && Settled(trace + [e], layer, stages, flags)
  {
    hide TriedInStage, Orderly, Attempts, Responds, Requests, Rounds, Partials, PartialSuccess, Due;
    TraceAppend(trace, e, layer);
    OrderlyAppend(trace, layer, key, e);
    assert (trace + [e])[|trace|] == e;
    forall m: Method
      ensures TriedInStage(trace + [e], layer, m) <==> !PartialSuccess(e, layer) && Has(flags, m)
    {
      StageAppend(trace, layer, e, m);
    }
  }

  lemma Responded(trace: seq<Event>, layer: Layer, key: Endpoint, e: Event, stages: nat, untried: nat, rounds: nat,
                  flags: Flags)
    requires IsRespond(e, layer) && Progress(trace, layer, key, stages, untried, rounds)
    requires Level(trace, layer, stages, flags) && Responds(trace, layer) < rounds && Undecided(trace, layer)
    requires stages <= MAX_AUTH_STAGES && rounds <= MAX_INTERACTIVE_ROUNDS
    ensures Progress(trace + [e], layer, key, stages, untried, rounds) && Settled(trace + [e], layer, stages, flags)
    ensures Within(trace + [e], layer, key) && (e.reply == None ==> Undecided(trace + [e], layer))
  {
    hide Progress, Level, Settled, Within, LastReply;
    RespondStep(trace, layer, key, e, stages, untried, rounds, flags);
    Bounds(trace + [e], layer, key, stages, untried, rounds);
    LastReplyAppend(trace, e, layer);
  }

  ghost predicate Untouched(trace: seq<Event>, layer: Layer) {
    forall i :: 0 <= i < |trace| ==> trace[i].layer != layer
  }

  lemma {:induction false} UntouchedCounts(trace: seq<Event>, layer: Layer)
    requires Untouched(trace, layer)
    ensures Attempts(trace, layer) == Responds(trace, layer) == Requests(trace, layer) == Partials(trace, layer) == 0
    ensures Rounds(trace, layer) == [] && LastReply(trace, layer) == None
  {
    if |trace| > 0 {
      UntouchedCounts(trace[..|trace| - 1], layer);
    }
  }

  lemma UntouchedOrder(trace: seq<Event>, layer: Layer, key: Endpoint)
    requires Untouched(trace, layer)
    ensures Orderly(trace, layer, key)
    ensures forall m :: !TriedInStage(trace, layer, m)
  {
    hide Due;
    forall i | 0 <= i < |trace| ensures OrderlyAt(trace, layer, key, i) {
      EventIs(trace[i], layer);
    }
  }

  /** The opening request, which tells the client what the server offers. */
  lemma NoneStep(trace: seq<Event>, layer: Layer, key: Endpoint, e: Event)
    requires Untouched(trace, layer) && e.Requested? && e.layer == layer && e.sent.NoneRequest?
    ensures Progress(trace + [e], layer, key, 1, 3, 0) && Settled(trace + [e], layer, 1, NONE_TRIED)
  {
    hide TriedInStage, Orderly, LastReply, Attempts, Responds, Requests, Rounds, Partials, Due;
    UntouchedCounts(trace, layer);
    UntouchedOrder(trace, layer, key);
    TraceAppend(trace, e, layer);
    OrderlyAppend(trace, layer, key, e);
    assert (trace + [e])[|trace|] == e;
    forall m: Method ensures !TriedInStage(trace + [e], layer, m) {
      StageAppend(trace, layer, e, m);
    }
  }

  /** Another layer's run leaves a layer's record as it was. */
  lemma {:induction false} OtherLayerKept(was: seq<Event>, now: seq<Event>, layer: Layer, other: Layer, key: Endpoint)
    requires Extends(was, now, layer) && other != layer && Within(was, other, key)
    ensures Within(now, other, key)
    decreases |now|
  {
    hide Attempts, Responds, Requests, Rounds, Partials, Orderly, OnlyOffered, OncePerStage;
    if |now| == |was| {
      assert now == was;
    } else {
      var shorter, e := now[..|now| - 1], now[|now| - 1];
      OtherLayerKept(was, shorter, layer, other, key);
      assert now == shorter + [e];
      TraceAppend(shorter, e, other);
      EventIs(e, other);
      OrderlyAppend(shorter, other, key, e);
      OrderlyMeans(now, other, key);
    }
  }

  // ---- Selecting a method ------------------------------------------------------

  /** Offered, not counted as tried, and with a key to use. */
  predicate Open(key: Endpoint, offered: seq<Method>, flags: Flags, m: Method) {
    m in offered && !Has(flags, m) && (m == PublicKey ==> key.hasPrivateKey)
  }

  /** The best open method is the one due; without an open method there is nothing left to try. */
  lemma Choice(trace: seq<Event>, layer: Layer, key: Endpoint, reply: AuthReply, stages: nat, flags: Flags)
    requires LastReply(trace, layer) == Some(reply) && reply.Failure?
    requires Level(trace, layer, stages, flags) && stages <= MAX_AUTH_STAGES
    ensures forall m: Method ::
              && Open(key, reply.offered, flags, m)
              && (forall b: Method :: Rank(b) < Rank(m) ==> !Open(key, reply.offered, flags, b))
              ==> Due(trace, layer, key, m)
    ensures (forall m: Method :: !Open(key, reply.offered, flags, m)) ==> NothingBetter(trace, layer, key, ANY_RANK)
  {
    hide TriedInStage, LastReply, Partials;
  }

  /** The same method by method. */
  lemma Choices(trace: seq<Event>, layer: Layer, key: Endpoint, reply: AuthReply, stages: nat, flags: Flags)
    requires LastReply(trace, layer) == Some(reply) && reply.Failure?
    requires Level(trace, layer, stages, flags) && stages <= MAX_AUTH_STAGES
    ensures Open(key, reply.offered, flags, PublicKey) ==> Due(trace, layer, key, PublicKey)
    ensures !Open(key, reply.offered, flags, PublicKey) && Open(key, reply.offered, flags, KeyboardInteractive) ==>
              Due(trace, layer, key, KeyboardInteractive)
    ensures !Open(key, reply.offered, flags, PublicKey) && !Open(key, reply.offered, flags, KeyboardInteractive) ==>
              if Open(key, reply.offered, flags, Password) then Due(trace, layer, key, Password)
              else NothingBetter(trace, layer, key, ANY_RANK)
    ensures AnyTried(trace, layer) <==> flags != NONE_TRIED
  {
    hide TriedInStage, LastReply, Partials, Due, NothingBetter, Open;
    Choice(trace, layer, key, reply, stages, flags);
    assert Has(flags, PublicKey) || Has(flags, Password) || Has(flags, KeyboardInteractive) <==> flags != NONE_TRIED;
  }

  // ---- What the environment says -------------------------------------------------

  function FinalReply(reply: InteractiveReply): Option<AuthReply> {
    match reply
    case InteractiveSuccess => Some(Success)
    case InteractiveFailure(offered, partialSuccess) => Some(AuthReply.Failure(offered, partialSuccess))
    case InfoRequest(_, _, _) => None
  }

  predicate IsInteractive(sent: Sent) {
    sent.InteractiveStart? || sent.InteractiveResponses?
  }

  /** How a request made at a tick ends: an interactive one gets the interactive answer, any other the plain one. A
      request for information is an answer, but no final one. */
  function Answer(env: Environment, sent: Sent, tick: nat): Exchange<Option<AuthReply>> {
    if IsInteractive(sent) then
      match env.interactive(tick)
      case Completed(reply) => Completed(FinalReply(reply))
      case Failed => Failed
      case Cancelled => Cancelled
      case TimedOut => TimedOut
    else
      match env.server(tick)
      case Completed(reply) => Completed(Some(reply))
      case Failed => Failed
      case Cancelled => Cancelled
      case TimedOut => TimedOut
  }

  /** The event is what the environment answers at a tick; a question was taken by the user interface. */
  predicate AnswerAt(env: Environment, e: Event, tick: nat) {
    match e
    case Asked(_, _) => env.callback(tick)
    case Requested(_, sent, reply) =>
      var answer := Answer(env, sent, tick); reply == if answer.Completed? then answer.reply else None
  }

  /** The request made at a tick was answered with a challenge. */
  predicate Challenges(env: Environment, layer: Layer, e: Event, tick: nat) {
    && e.Requested? && e.layer == layer && IsInteractive(e.sent)
    && env.interactive(tick).Completed? && env.interactive(tick).reply.InfoRequest?
  }

  /** That challenge has so many prompts and keeps within the limits. */
  predicate ChallengeFits(env: Environment, tick: nat)
    requires env.interactive(tick).Completed? && env.interactive(tick).reply.InfoRequest?
  {
    var c := env.interactive(tick).reply; ChallengeWithinLimits(c.name, c.instructions, c.prompts)
  }

  /** A question for responses shows the challenge just received, prompt by prompt. */
  ghost predicate ShowsChallenge(env: Environment, before: Event, tick: nat, e: Event)
    requires e.Asked?
  {
    e.question.AskResponses? ==>
      && Challenges(env, e.layer, before, tick) && ChallengeFits(env, tick)
      && var c := env.interactive(tick).reply;
         && ShownAs(c.name, c.instructions, c.prompts, e.question.shown)
         && |c.prompts| == e.question.prompts && e.question.shown.round == e.question.round
  }

  ghost predicate GenuineAt(env: Environment, trace: seq<Event>, ticks: seq<nat>, i: nat)
    requires i < |trace| == |ticks|
  {
    && AnswerAt(env, trace[i], ticks[i])
    && (trace[i].Asked? ==> i > 0 && ShowsChallenge(env, trace[i - 1], ticks[i - 1], trace[i]))
  }

  /** The events of a trace were answered one after the other, and the challenges shown are the server's. */
  ghost predicate FromEnvironment(env: Environment, trace: seq<Event>, ticks: seq<nat>, clock: nat) {
    && |ticks| == |trace|
    && (forall i :: 0 <= i < |trace| ==> GenuineAt(env, trace, ticks, i) && ticks[i] <= clock)
    && forall i, j :: 0 <= i < j < |ticks| ==> ticks[i] < ticks[j]
  }

  lemma FromAppend(env: Environment, trace: seq<Event>, ticks: seq<nat>, clock: nat, e: Event, tick: nat)
    requires FromEnvironment(env, trace, ticks, clock) && clock < tick && AnswerAt(env, e, tick)
    requires e.Asked? ==> |trace| > 0 && ShowsChallenge(env, trace[|trace| - 1], ticks[|trace| - 1], e)
    ensures FromEnvironment(env, trace + [e], ticks + [tick], tick) && |ticks| == |trace|
  {
    hide AnswerAt, ShowsChallenge;
    var n := |trace|;
    forall i | 0 <= i < n + 1 ensures GenuineAt(env, trace + [e], ticks + [tick], i) {
      if i < n {
        assert GenuineAt(env, trace, ticks, i);
      }
    }
  }

  lemma FromLater(env: Environment, trace: seq<Event>, ticks: seq<nat>, clock: nat, later: nat)
    requires FromEnvironment(env, trace, ticks, clock) && clock <= later
    ensures FromEnvironment(env, trace, ticks, later)
  {
    hide GenuineAt;
  }

  // ---- Why a run ends --------------------------------------------------------------

  /** Where a run stands: its record with the ticks of the events, the queue position and the clock. */
  datatype Stand = Stand(trace: seq<Event>, ticks: seq<nat>, next: nat, clock: nat)

  /** The last event is a request on the layer. */
  predicate Requesting(s: Stand, layer: Layer) {
    |s.ticks| == |s.trace| > 0 && Last(s).Requested? && Last(s).layer == layer
  }

  /** The last event is a question on the layer. */
  predicate Asking(s: Stand, layer: Layer) {
    |s.ticks| == |s.trace| > 0 && Last(s).Asked? && Last(s).layer == layer
  }

  function Last(s: Stand): Event
    requires |s.trace| > 0
  {
    s.trace[|s.trace| - 1]
  }

  function LastTick(s: Stand): nat
    requires |s.ticks| > 0
  {
    s.ticks[|s.ticks| - 1]
  }

  function Ending<T>(x: Exchange<T>): Outcome
    requires !x.Completed?
  {
    match x
    case Failed => FailedOutcome(Exchanging)
    case Cancelled => CancelledOutcome
    case TimedOut => FailedOutcome(Timeout)
  }

  /** The server said success to the last request. */
  predicate Granted(s: Stand, layer: Layer, o: Outcome) {
    o == Authenticated && Requesting(s, layer) && LastTick(s) == s.clock && Last(s).reply == Some(Success)
  }

  /** The last request failed, was cancelled or timed out. */
  predicate Unanswered(env: Environment, s: Stand, layer: Layer, o: Outcome) {
    && Requesting(s, layer) && LastTick(s) == s.clock
    && var answer := Answer(env, Last(s).sent, s.clock); !answer.Completed? && o == Ending(answer)
  }

  /** After the last question only commands of the other layer came, one a tick. */
  predicate OthersOnly(env: Environment, s: Stand, layer: Layer) {
    && Asking(s, layer) && NextAfter(s.trace) <= s.next <= |env.posted|
    && (forall k :: NextAfter(s.trace) <= k < s.next ==> env.posted[k].layer != layer)
    && s.clock == LastTick(s) + (s.next - NextAfter(s.trace)) + 1
    && forall t :: LastTick(s) < t < s.clock ==> env.wait(t).Receive?
  }

  /** The user's answer never came. */
  predicate Abandoned(env: Environment, s: Stand, layer: Layer, o: Outcome) {
    && OthersOnly(env, s, layer)
    && match env.wait(s.clock)
       case Receive => s.next == |env.posted| && o == CancelledOutcome
       case Disconnect => o == CancelledOutcome
       case Deadline => o == FailedOutcome(Timeout)
  }

  /** The last command taken is the layer's first one since the last question, and not yet used. */
  predicate Handed(env: Environment, s: Stand, layer: Layer) {
    && Asking(s, layer) && s.next > 0 && Takes(env.posted, NextAfter(s.trace), s.next - 1, layer)
    && s.clock == LastTick(s) + (s.next - NextAfter(s.trace))
    && forall t :: LastTick(s) < t <= s.clock ==> env.wait(t).Receive?
  }

  /** The user's answer does not fit the question. */
  predicate Misfit(env: Environment, s: Stand, layer: Layer, o: Outcome) {
    && Handed(env, s, layer)
    && var refusal := Refusal(Last(s).question, env.posted[s.next - 1].credential);
       refusal.Some? && o == FailedOutcome(Protocol(refusal.value))
  }

  /** The server's challenge is one too many, or too large. */
  predicate Overlong(env: Environment, s: Stand, layer: Layer, o: Outcome) {
    && Requesting(s, layer) && LastTick(s) == s.clock && Challenges(env, layer, Last(s), s.clock)
    && (|Rounds(s.trace, layer)| == MAX_INTERACTIVE_ROUNDS || !ChallengeFits(env, s.clock))
    && o == FailedOutcome(Protocol(ProtocolLimitExceeded))
  }

  /** The user interface did not take the question that was due. */
  ghost predicate Undelivered(env: Environment, s: Stand, layer: Layer, key: Endpoint, o: Outcome) {
    && Requesting(s, layer) && s.clock == LastTick(s) + 1 && !env.callback(s.clock)
    && (|| (Due(s.trace, layer, key, PublicKey) && key.keyRequiresPassphrase)
        || Due(s.trace, layer, key, Password)
        || (Challenges(env, layer, Last(s), LastTick(s)) && ChallengeFits(env, LastTick(s))
            && |Rounds(s.trace, layer)| < MAX_INTERACTIVE_ROUNDS))
    && o == FailedOutcome(CallbackDelivery)
  }

  /** The last answer is a failure after which no method is left, or no stage. */
  ghost predicate GivenUp(s: Stand, layer: Layer, key: Endpoint, o: Outcome) {
    && Requesting(s, layer) && LastTick(s) == s.clock && Last(s).reply.Some? && Last(s).reply.value.Failure?
    && var partial := Last(s).reply.value.partialSuccess;
       if partial && Partials(s.trace, layer) == MAX_AUTH_STAGES then
         o == FailedOutcome(Protocol(ProtocolLimitExceeded))
       else
         && NothingBetter(s.trace, layer, key, ANY_RANK)
         && o == FailedOutcome(Protocol(if partial || AnyTried(s.trace, layer) then Rejected else NoSupportedMethod))
  }

  ghost predicate AnyTried(trace: seq<Event>, layer: Layer) {
    exists m: Method :: TriedInStage(trace, layer, m)
  }

  /** The outcome is the one the last step of the run calls for. */
  ghost predicate Explained(env: Environment, s: Stand, layer: Layer, key: Endpoint, o: Outcome) {
    || Granted(s, layer, o)
    || Unanswered(env, s, layer, o)
    || Abandoned(env, s, layer, o)
    || Misfit(env, s, layer, o)
    || Overlong(env, s, layer, o)
    || Undelivered(env, s, layer, key, o)
    || GivenUp(s, layer, key, o)
  }

  /** All reasons but the first are failures. */
  lemma Fails(env: Environment, s: Stand, layer: Layer, key: Endpoint, o: Outcome)
    requires Unanswered(env, s, layer, o) || Abandoned(env, s, layer, o) || Misfit(env, s, layer, o)
             || Overlong(env, s, layer, o) || Undelivered(env, s, layer, key, o) || GivenUp(s, layer, key, o)
    ensures Explained(env, s, layer, key, o) && o != Authenticated
  {
  }

  /** Where a run stands decides its outcome, and an unexpected challenge is never one. */
  lemma OneOutcome(env: Environment, s: Stand, layer: Layer, key: Endpoint, o: Outcome, other: Outcome)
    requires FromEnvironment(env, s.trace, s.ticks, s.clock) && Explained(env, s, layer, key, o)
    ensures Explained(env, s, layer, key, other) ==> other == o
    ensures o != FailedOutcome(Protocol(UnexpectedChallenge))
  {
    hide Refusal, NothingBetter, Due, Takes, Rounds, Partials, AnyTried, ChallengeFits, NextAfter;
    assert GenuineAt(env, s.trace, s.ticks, |s.trace| - 1);
  }

  /** A question for the credential of the method due was not taken. */
  lemma NotTaken(env: Environment, s: Stand, layer: Layer, key: Endpoint, m: Method)
    requires Requesting(s, layer) && s.clock == LastTick(s) + 1 && !env.callback(s.clock)
    requires Due(s.trace, layer, key, m) && (m == Password || (m == PublicKey && key.keyRequiresPassphrase))
    ensures Undelivered(env, s, layer, key, FailedOutcome(CallbackDelivery))
  {
  }

  /** A command that fits the question may go out as its answer. */
  lemma Answering(env: Environment, s: Stand, layer: Layer, sent: Sent)
    requires Handed(env, s, layer) && AnswerTo(Last(s).question, sent)
    requires Refusal(Last(s).question, env.posted[s.next - 1].credential) == None
    requires Used(Requested(layer, sent, None)) == Some(s.next - 1)
    ensures Authorised(env.posted, Last(s), Requested(layer, sent, None))
    ensures Takes(env.posted, NextAfter(s.trace), s.next - 1, layer)
  {
  }

  lemma Misfits(env: Environment, s: Stand, layer: Layer, key: Endpoint)
    requires Handed(env, s, layer) && Refusal(Last(s).question, env.posted[s.next - 1].credential).Some?
    ensures var o := FailedOutcome(Protocol(Refusal(Last(s).question, env.posted[s.next - 1].credential).value));
            Explained(env, s, layer, key, o) && o != Authenticated
  {
    hide Handed, Refusal;
  }

  /** A challenge that cannot be taken ends the run, and so does one that cannot be shown. */
  lemma ChallengeFails(env: Environment, s: Stand, layer: Layer, key: Endpoint)
    requires Requesting(s, layer) && Challenges(env, layer, Last(s), LastTick(s))
    ensures LastTick(s) == s.clock
            && (|Rounds(s.trace, layer)| == MAX_INTERACTIVE_ROUNDS || !ChallengeFits(env, s.clock)) ==>
              Explained(env, s, layer, key, FailedOutcome(Protocol(ProtocolLimitExceeded)))
    ensures LastTick(s) + 1 == s.clock && !env.callback(s.clock)
            && |Rounds(s.trace, layer)| < MAX_INTERACTIVE_ROUNDS && ChallengeFits(env, LastTick(s)) ==>
              Explained(env, s, layer, key, FailedOutcome(CallbackDelivery))
  {
    hide Due, ChallengeFits, Rounds;
  }

  lemma IsGranted(env: Environment, s: Stand, layer: Layer, key: Endpoint)
    requires Requesting(s, layer) && LastTick(s) == s.clock && Last(s).reply == Some(Success)
    ensures Explained(env, s, layer, key, Authenticated)
  {
  }

  /** The reason lies in the last event, which is of the layer. */
  lemma EndsOn(env: Environment, s: Stand, layer: Layer, key: Endpoint, o: Outcome)
    requires Explained(env, s, layer, key, o)
    ensures |s.trace| > 0 && Last(s).layer == layer && !Untouched(s.trace, layer)
  {
    hide Due, NothingBetter, Takes;
  }
}
