/** The client's authentication state machine: method selection, credentials and challenge rounds. */
module AuthStateMachine {
  import opened Basics

  const MAX_INTERACTIVE_ROUNDS: nat := 8
  const MAX_AUTH_STAGES: nat := 8
  const MAX_PROMPTS_PER_ROUND: nat := 16
  const MAX_SERVER_FIELD_BYTES: nat := 4096
  const MAX_PROMPT_BYTES_PER_ROUND: nat := 16 * 1024
  const MAX_RESPONSE_BYTES: nat := 4096
  const MAX_RESPONSE_BYTES_PER_ROUND: nat := 16 * 1024
  const MAX_U32: nat := 0xFFFF_FFFF

  datatype Method = PublicKey | Password | KeyboardInteractive

  /** Server text with its UTF-8 length; the limits count bytes, sanitising drops control characters. */
  datatype Text = Text(chars: string, bytes: nat)

  datatype Prompt = Prompt(text: Text, echo: bool)

  datatype ShownPrompt = ShownPrompt(text: string, echo: bool)

  datatype Challenge = Challenge(round: nat, name: string, instructions: string, prompts: seq<ShownPrompt>)

  datatype Failure =
    | NoSupportedMethod | Rejected | UnexpectedCredential | UnexpectedChallenge
    | StaleChallenge | ResponseCountMismatch | ProtocolLimitExceeded

  datatype Action =
    | AttemptPublicKey
    | RequestPrivateKeyPassphrase
    | RequestPassword
    | StartKeyboardInteractive
    | PresentChallenge(challenge: Challenge)
    | Fail(failure: Failure)

  datatype WaitingFor = ForPassphrase | ForPassword

  predicate Displayable(c: char) {
    c in {'\n', '\r', '\t'} || !IsControl(c)
  }

  function Sanitize(value: string): string {
    if |value| == 0 then ""
    else (if Displayable(value[0]) then [value[0]] else []) + Sanitize(value[1..])
  }

  /** Sanitised text shows only displayable characters, in order, and is left alone by a second pass. */
  lemma {:induction false} SanitizeClean(value: string)
    ensures forall k :: 0 <= k < |Sanitize(value)| ==> Displayable(Sanitize(value)[k])
    ensures Sanitize(Sanitize(value)) == Sanitize(value)
    ensures IsSubsequence(Sanitize(value), value)
  {
    if |value| == 0 {
      assert Embeds(Sanitize(value), value, []);
    } else {
      SanitizeClean(value[1..]);
      var rest := Sanitize(value[1..]);
      SubsequenceUnderHead(rest, value);
      if Displayable(value[0]) {
        var clean := [value[0]] + rest;
        assert clean[0] == value[0] && clean[1..] == rest;
        assert Sanitize(value) == clean && Sanitize(clean) == clean;
      } else {
        assert Sanitize(value) == [] + rest == rest;
      }
    }
  }

  /** Sanitising works character by character. */
  lemma {:induction false} SanitizeConcat(a: string, b: string)
    ensures Sanitize(a + b) == Sanitize(a) + Sanitize(b)
  {
    if |a| == 0 {
      assert a + b == b;
    } else {
      SanitizeConcat(a[1..], b);
      assert (a + b)[1..] == a[1..] + b;
    }
  }

  /** No displayable character is lost, and text of such characters only is left alone. */
  lemma {:induction false} SanitizeKeeps(value: string)
    ensures forall c :: Displayable(c) ==> multiset(Sanitize(value))[c] == multiset(value)[c]
    ensures (forall k :: 0 <= k < |value| ==> Displayable(value[k])) ==> Sanitize(value) == value
  {
    if |value| > 0 {
      SanitizeKeeps(value[1..]);
      assert value == [value[0]] + value[1..];
      assert multiset(value) == multiset{value[0]} + multiset(value[1..]);
      if Displayable(value[0]) {
        assert multiset(Sanitize(value)) == multiset{value[0]} + multiset(Sanitize(value[1..]));
      } else {
        assert Sanitize(value) == [] + Sanitize(value[1..]) == Sanitize(value[1..]);
      }
    }
  }

  /** What a user sees of server text: everything but control characters other than line feed, carriage return and
      tab. */
  ghost predicate SeenAs(value: string, shown: string) {
    && IsSubsequence(shown, value)
    && (forall k :: 0 <= k < |shown| ==>
          shown[k] in {'\n', '\r', '\t'} || !(shown[k] as int < 32 || 127 <= shown[k] as int <= 159))
    && forall c: char :: c in {'\n', '\r', '\t'} || !(c as int < 32 || 127 <= c as int <= 159) ==>
         multiset(shown)[c] == multiset(value)[c]
  }

  lemma SanitizeSeen(value: string)
    ensures SeenAs(value, Sanitize(value))
  {
    SanitizeClean(value);
    SanitizeKeeps(value);
    forall c: char | c in {'\n', '\r', '\t'} || !(c as int < 32 || 127 <= c as int <= 159)
      ensures multiset(Sanitize(value))[c] == multiset(value)[c]
    {
      assert Displayable(c);
    }
  }

  lemma SubsequenceUnderHead(rest: string, value: string)
    requires |value| > 0 && IsSubsequence(rest, value[1..])
    ensures IsSubsequence(rest, value) && IsSubsequence([value[0]] + rest, value)
  {
    var at: seq<nat> :| Embeds(rest, value[1..], at);
    var up := seq(|at|, k requires 0 <= k < |at| => at[k] + 1);
    assert Embeds(rest, value, up);
    assert Embeds([value[0]] + rest, value, [0] + up);
  }

  function PromptBytes(prompts: seq<Prompt>): nat {
    if |prompts| == 0 then 0 else prompts[0].text.bytes + PromptBytes(prompts[1..])
  }

  function Sum(lengths: seq<nat>): nat {
    if |lengths| == 0 then 0 else lengths[0] + Sum(lengths[1..])
  }

  predicate ChallengeWithinLimits(name: Text, instructions: Text, prompts: seq<Prompt>) {
    && |prompts| <= MAX_PROMPTS_PER_ROUND
    && name.bytes <= MAX_SERVER_FIELD_BYTES && instructions.bytes <= MAX_SERVER_FIELD_BYTES
    && (forall k :: 0 <= k < |prompts| ==> prompts[k].text.bytes <= MAX_SERVER_FIELD_BYTES)
    && PromptBytes(prompts) <= MAX_PROMPT_BYTES_PER_ROUND
  }

  predicate ResponsesWithinLimits(lengths: seq<nat>) {
    && (forall k :: 0 <= k < |lengths| ==> lengths[k] <= MAX_RESPONSE_BYTES)
    && Sum(lengths) <= MAX_RESPONSE_BYTES_PER_ROUND
  }

  lemma {:induction false} EvenPrompts(prompts: seq<Prompt>, b: nat)
    requires forall k :: 0 <= k < |prompts| ==> prompts[k].text.bytes == b
    ensures PromptBytes(prompts) == |prompts| * b
  {
    if |prompts| > 0 {
      EvenPrompts(prompts[1..], b);
    }
  }

  lemma {:induction false} EvenLengths(lengths: seq<nat>, b: nat)
    requires forall k :: 0 <= k < |lengths| ==> lengths[k] == b
    ensures Sum(lengths) == |lengths| * b
  {
    if |lengths| > 0 {
      EvenLengths(lengths[1..], b);
    }
  }

  /** Prompts or responses of equal size fit when each has at most 4 KiB, all have at most 16 KiB, and there are at most
      16 prompts. */
  lemma EvenLimits(name: Text, instructions: Text, prompts: seq<Prompt>, lengths: seq<nat>, b: nat)
    requires prompts != [] && lengths != []
    requires forall k :: 0 <= k < |prompts| ==> prompts[k].text.bytes == b
    requires forall k :: 0 <= k < |lengths| ==> lengths[k] == b
    ensures ChallengeWithinLimits(name, instructions, prompts) <==>
            && name.bytes <= 4096 && instructions.bytes <= 4096
            && |prompts| <= 16 && b <= 4096 && |prompts| * b <= 16384
    ensures ResponsesWithinLimits(lengths) <==> b <= 4096 && |lengths| * b <= 16384
  {
    EvenPrompts(prompts, b);
    EvenLengths(lengths, b);
    assert prompts[0].text.bytes == b && lengths[0] == b;
  }

  function Shown(prompts: seq<Prompt>): seq<ShownPrompt> {
    seq(|prompts|, k requires 0 <= k < |prompts| => ShownPrompt(Sanitize(prompts[k].text.chars), prompts[k].echo))
  }

  /** What the user sees of a server's challenge. */
  ghost predicate ShownAs(name: Text, instructions: Text, prompts: seq<Prompt>, c: Challenge) {
    && SeenAs(name.chars, c.name) && SeenAs(instructions.chars, c.instructions) && |c.prompts| == |prompts|
    && forall k :: 0 <= k < |prompts| ==>
         c.prompts[k].echo == prompts[k].echo && SeenAs(prompts[k].text.chars, c.prompts[k].text)
  }

  lemma ShownSeen(round: nat, name: Text, instructions: Text, prompts: seq<Prompt>)
    ensures ShownAs(name, instructions, prompts,
                    Challenge(round, Sanitize(name.chars), Sanitize(instructions.chars), Shown(prompts)))
  {
    hide SeenAs;
    SanitizeSeen(name.chars);
    SanitizeSeen(instructions.chars);
    forall k | 0 <= k < |prompts| ensures SeenAs(prompts[k].text.chars, Shown(prompts)[k].text) {
      SanitizeSeen(prompts[k].text.chars);
    }
  }

  class StateMachine {
    const hasPrivateKey: bool
    const keyRequiresPassphrase: bool
    var publicKeyAttempted: bool
    var passwordAttempted: bool
    var interactiveAttempted: bool
    var anyMethodAttempted: bool
    var waitingFor: Option<WaitingFor>
    var pendingChallenge: Option<(nat, nat)>
    var nextRoundId: nat
    var interactiveRounds: nat
    var authStages: nat

    predicate Valid()
      reads this
    {
      && nextRoundId == interactiveRounds + 1
      && interactiveRounds <= MAX_INTERACTIVE_ROUNDS
      && 1 <= authStages <= MAX_AUTH_STAGES
      && (publicKeyAttempted ==> hasPrivateKey)
      && (pendingChallenge.Some? ==> interactiveAttempted && pendingChallenge.value.0 == interactiveRounds)
      && (waitingFor == Some(ForPassphrase) ==> hasPrivateKey && keyRequiresPassphrase && !publicKeyAttempted)
      && (waitingFor == Some(ForPassword) ==> !passwordAttempted)
      && (anyMethodAttempted <==> publicKeyAttempted || passwordAttempted || interactiveAttempted)
    }

    /** Ready for the next selection: no credential and no responses are outstanding. */
    predicate Idle()
      reads this
    {
      Valid() && waitingFor.None? && pendingChallenge.None?
    }

    predicate Attempted(m: Method)
      reads this
    {
      match m
      case PublicKey => publicKeyAttempted
      case Password => passwordAttempted
      case KeyboardInteractive => interactiveAttempted
    }

    /** Methods still open in this stage. */
    function Untried(): (n: nat)
      reads this
      ensures n <= 3
    {
      (if publicKeyAttempted then 0 else 1) + (if passwordAttempted then 0 else 1)
          + (if interactiveAttempted then 0 else 1)
    }

    /** Strictly falls with every method started. */
    function Measure(): nat
      reads this
      requires authStages <= MAX_AUTH_STAGES
    {
      4 * (MAX_AUTH_STAGES - authStages) + Untried()
    }

    constructor (hasPrivateKey: bool, keyRequiresPassphrase: bool)
      ensures Idle() && this.hasPrivateKey == hasPrivateKey && this.keyRequiresPassphrase == keyRequiresPassphrase
      ensures authStages == 1 && nextRoundId == 1 && Untried() == 3
    {
      this.hasPrivateKey, this.keyRequiresPassphrase := hasPrivateKey, keyRequiresPassphrase;
      publicKeyAttempted, passwordAttempted, interactiveAttempted, anyMethodAttempted := false, false, false, false;
      waitingFor, pendingChallenge := None, None;
      nextRoundId, interactiveRounds, authStages := 1, 0, 1;
    }

    /** Whether a method can be taken: offered by the server, untried in this stage, and with a key to use. */
    predicate Eligible(m: Method, offered: seq<Method>, freshStage: bool)
      reads this
    {
      m in offered && (freshStage || !Attempted(m)) && (m == PublicKey ==> hasPrivateKey)
    }

    /** Public key first, then keyboard-interactive, then password; a partial success opens a new stage. */
    method SelectNextMethod(offered: seq<Method>, partialSuccess: bool) returns (action: Action)
      requires Valid()
      modifies this
      ensures Valid() && nextRoundId == old(nextRoundId) && interactiveRounds == old(interactiveRounds)
      ensures action.Fail? || action.AttemptPublicKey? || action.RequestPrivateKeyPassphrase? || action.RequestPassword?
              || action.StartKeyboardInteractive?
      // Something outstanding, or one stage too many: refused, nothing changes.
      ensures !old(Idle()) ==> action == Fail(UnexpectedCredential)
      ensures old(Idle()) && partialSuccess && old(authStages) == MAX_AUTH_STAGES ==>
              action == Fail(ProtocolLimitExceeded)
      ensures !old(Idle()) || (partialSuccess && old(authStages) == MAX_AUTH_STAGES) ==>
                authStages == old(authStages) && waitingFor == old(waitingFor)
                    && pendingChallenge == old(pendingChallenge)
                && publicKeyAttempted == old(publicKeyAttempted) && passwordAttempted == old(passwordAttempted)
                && interactiveAttempted == old(interactiveAttempted)
      // Otherwise the preferred eligible method is taken.
      ensures old(Idle()) && !(partialSuccess && old(authStages) == MAX_AUTH_STAGES) ==>
        var key := old(Eligible(PublicKey, offered, partialSuccess));
        var interactive := old(Eligible(KeyboardInteractive, offered, partialSuccess));
        var password := old(Eligible(Password, offered, partialSuccess));
        && pendingChallenge.None?
        && authStages == old(authStages) + (if partialSuccess then 1 else 0)
        && publicKeyAttempted == ((!partialSuccess && old(publicKeyAttempted)) || action == AttemptPublicKey)
        && interactiveAttempted ==
            ((!partialSuccess && old(interactiveAttempted)) || action == StartKeyboardInteractive)
        && passwordAttempted == (!partialSuccess && old(passwordAttempted))
        && (action == AttemptPublicKey <==> key && !keyRequiresPassphrase)
        && (action == RequestPrivateKeyPassphrase <==> key && keyRequiresPassphrase)
        && (action == StartKeyboardInteractive <==> !key && interactive)
        && (action == RequestPassword <==> !key && !interactive && password)
        && (action.Fail? <==> !key && !interactive && !password)
        && (action.Fail? ==>
            action.failure == (if partialSuccess || old(anyMethodAttempted) then Rejected else NoSupportedMethod))
        && waitingFor == (if action == RequestPrivateKeyPassphrase then Some(ForPassphrase)
                          else if action == RequestPassword then Some(ForPassword) else None)
    {
      if waitingFor.Some? || pendingChallenge.Some? {
        return Fail(UnexpectedCredential);
      }
      if partialSuccess {
        if authStages >= MAX_AUTH_STAGES {
          return Fail(ProtocolLimitExceeded);
        }
        authStages := authStages + 1;
        publicKeyAttempted, passwordAttempted, interactiveAttempted, anyMethodAttempted := false, false, false, false;
      }
      waitingFor, pendingChallenge := None, None;
      if hasPrivateKey && !publicKeyAttempted && PublicKey in offered {
        if keyRequiresPassphrase {
          waitingFor := Some(ForPassphrase);
          return RequestPrivateKeyPassphrase;
        }
        publicKeyAttempted, anyMethodAttempted := true, true;
        return AttemptPublicKey;
      }
      if !interactiveAttempted && KeyboardInteractive in offered {
        interactiveAttempted, anyMethodAttempted := true, true;
        return StartKeyboardInteractive;
      }
      if !passwordAttempted && Password in offered {
        waitingFor := Some(ForPassword);
        return RequestPassword;
      }
      return Fail(if partialSuccess || anyMethodAttempted then Rejected else NoSupportedMethod);
    }

    method SubmitPrivateKeyPassphrase() returns (action: Action)
      requires Valid()
      modifies this`waitingFor, this`publicKeyAttempted, this`anyMethodAttempted
      ensures Valid()
      ensures action == if old(waitingFor) == Some(ForPassphrase) then AttemptPublicKey else Fail(UnexpectedCredential)
      ensures action.AttemptPublicKey? ==> waitingFor.None? && publicKeyAttempted && !old(publicKeyAttempted)
      ensures action.Fail? ==> waitingFor == old(waitingFor) && publicKeyAttempted == old(publicKeyAttempted)
    {
      if waitingFor != Some(ForPassphrase) {
        return Fail(UnexpectedCredential);
      }
      waitingFor := None;
      publicKeyAttempted, anyMethodAttempted := true, true;
      return AttemptPublicKey;
    }

    method SubmitPassword() returns (r: Result<(), Failure>)
      requires Valid()
      modifies this`waitingFor, this`passwordAttempted, this`anyMethodAttempted
      ensures Valid()
      ensures r == if old(waitingFor) == Some(ForPassword) then Ok(()) else Err(UnexpectedCredential)
      ensures r.Ok? ==> waitingFor.None? && passwordAttempted && !old(passwordAttempted)
      ensures r.Err? ==> waitingFor == old(waitingFor) && passwordAttempted == old(passwordAttempted)
    {
      if waitingFor != Some(ForPassword) {
        return Err(UnexpectedCredential);
      }
      waitingFor := None;
      passwordAttempted, anyMethodAttempted := true, true;
      return Ok(());
    }

    /** Opens a round when a keyboard-interactive exchange runs and nothing is pending. */
    method PresentChallenge(name: Text, instructions: Text, prompts: seq<Prompt>) returns (action: Action)
      requires Valid()
      modifies this`pendingChallenge, this`nextRoundId, this`interactiveRounds
      ensures Valid()
      ensures var allowed := old(interactiveAttempted && pendingChallenge.None?);
              var within := old(interactiveRounds) < MAX_INTERACTIVE_ROUNDS
                  && ChallengeWithinLimits(name, instructions, prompts);
              action == if !allowed then Fail(UnexpectedChallenge)
                        else if !within then Fail(ProtocolLimitExceeded)
                        else Action.PresentChallenge(Challenge(old(nextRoundId), Sanitize(name.chars),
                                                               Sanitize(instructions.chars), Shown(prompts)))
      // Every prompt keeps its place, its echo flag and its displayable characters.
      ensures action.PresentChallenge? ==> ShownAs(name, instructions, prompts, action.challenge)
      ensures action.PresentChallenge? ==>
                && nextRoundId == old(nextRoundId) + 1 <= MAX_INTERACTIVE_ROUNDS + 1
                && pendingChallenge == Some((old(nextRoundId), |prompts|))
      ensures action.Fail? ==>
                nextRoundId == old(nextRoundId) && interactiveRounds == old(interactiveRounds)
                && pendingChallenge == old(pendingChallenge)
    {
      if !interactiveAttempted || pendingChallenge.Some? {
        return Fail(UnexpectedChallenge);
      }
      if interactiveRounds >= MAX_INTERACTIVE_ROUNDS || !ChallengeWithinLimits(name, instructions, prompts) {
        return Fail(ProtocolLimitExceeded);
      }
      var roundId := nextRoundId;
      if roundId + 1 > MAX_U32 {
        assert false;
        return Fail(ProtocolLimitExceeded);
      }
      nextRoundId := roundId + 1;
      interactiveRounds := interactiveRounds + 1;
      pendingChallenge := Some((roundId, |prompts|));
      ShownSeen(roundId, name, instructions, prompts);
      return Action.PresentChallenge(
          Challenge(roundId, Sanitize(name.chars), Sanitize(instructions.chars), Shown(prompts)));
    }

    /** Responses count only for the pending round, with one response per prompt, within the limits. */
    method ValidateResponses(roundId: nat, lengths: seq<nat>) returns (r: Result<(), Failure>)
      requires Valid()
      modifies this`pendingChallenge
      ensures Valid()
      ensures old(pendingChallenge).None? ==> r == Err(UnexpectedChallenge)
      ensures old(pendingChallenge).Some? ==>
        var (pendingRound, promptCount) := old(pendingChallenge).value;
        r == if roundId != pendingRound then Err(StaleChallenge)
             else if |lengths| != promptCount then Err(ResponseCountMismatch)
             else if !ResponsesWithinLimits(lengths) then Err(ProtocolLimitExceeded)
             else Ok(())
      ensures pendingChallenge == if r.Ok? then None else old(pendingChallenge)
    {
      if pendingChallenge.None? {
        return Err(UnexpectedChallenge);
      }
      var (pendingRound, promptCount) := pendingChallenge.value;
      if roundId != pendingRound {
        return Err(StaleChallenge);
      }
      if |lengths| != promptCount {
        return Err(ResponseCountMismatch);
      }
      if !ResponsesWithinLimits(lengths) {
        return Err(ProtocolLimitExceeded);
      }
      pendingChallenge := None;
      return Ok(());
    }
  }
}
