# LeanTTY verification

Dafny models of the parts of LeanTTY whose logic is hard to get right by reading: the terminal's observer of control
sequences, the SSH session's output and input loops, client authentication against an arbitrary server, file
transactions that may fail at any step, the private-key, `known_hosts`, Mosh, base64 and UTF-8 formats, and the tools
that observe attention events. `dafny verify dfyconfig.toml` checks everything.

## How the model is laid out

One module per component. Code that changes things step by step is a class or a method with a loop, proved equal to a
specification function or to a description of the whole run; code made of expressions is functions. What the promises
of a component are is then stated as lemmas about those functions, runs and traces.

Everything outside a component is a parameter and is quantified over: the VT parser is any byte automaton
(`TerminalOutput.Vt`), a `select!` is any sequence of choices, a server, a user, other SFTP clients and failing file
operations are functions from the step number to what happens there, key codecs and ciphers are records of functions.
A sequence of choices that runs out means that the run is still going on, or, for the session loop and the copy loop,
that a local disconnect comes next.

| module | component |
|---|---|
| Basics, Decimals, Wire | bytes, options, searching, splitting and joining, decimal numerals, SSH's length-prefixed encoding |
| Utf8, Base64, TerminalEffects, EffectLaws, TerminalOutput | the terminal's effect decoder and the chunked collector in front of it |
| AgentCapture, AttentionObserver, AttentionRendering, AttentionAgreement, AttentionLaws | the capture analyser, the outer observer, and how both compare with the terminal |
| OutputDelivery, ChannelWriter | the connected session's output loop and its input writer |
| AuthStateMachine, AuthTrace, AuthDriver, AuthLaws | client authentication (RFC 4252, section 5.1; RFC 4256, section 3.4) |
| Transfer | SFTP put and get |
| KeyFiles, KeyComment, KeyPassphrase | transactions over key files |
| Kdf, PrivateKeys, PrivateKeyCodec, PrivateKeyLaws, FormatLaws | the OpenSSH private-key format |
| KnownHosts, KnownHostsEdits, KnownHostsSearch, KnownHostsLaws | finding and removing `known_hosts` entries |
| MoshBootstrap, MoshLaws | the bootstrap command's printer and parser |
| StartGate, StartGateRuns, StartGateLaws | the single-use launch gate |

## What came out differently from what one would expect

- Finding a target after removing it finds nothing **unless** the edit exposes later text of a line as host patterns:
  the only pattern left is empty, or the first pattern left begins with `@` and then reads as a marker.
  `KnownHostsSearch.NothingRemains` is the exact condition, `ExposedExample` a file that keeps its entry.
- The terminal tolerates one colon at the end of OSC 99 metadata, the capture analyser does not:
  `AgentCapture.AgreementExact` is the exact condition, `TrailingColonExample` a payload on which they differ.
- The base64 decoder does not look at the unused bits of a padded group: `Base64.EncodeOfDecode` says for which texts
  re-encoding gives the text back.
- A plain key file padded by a whole extra block is read but never written: `PrivateKeys.EncodeOfDecode` is the exact
  condition, `PrivateKeys.OverpaddedIsRead` says it of every plain key, `PrivateKeyLaws.OverpaddedExample` of one.
- A sealed key that was given a comment loses it in its file: `PrivateKeys.DecodedEqual` is the exact condition,
  `PrivateKeyLaws.LostCommentExample` such a key.
- When putting the private key file back fails, the new private file stays beside the old public one, and the cleanup
  removes the backup too: `KeyComment.MixedMeansRollbackFailed` is the exact condition, `KeyComment.MixedPairExample`
  such a run.

## Model

| member | source | states |
|---|---|---|
| Utf8.Utf8 | entry/src/main/cpp/terminal/TerminalEffects.cpp:32-50 | accepts a byte string if and only if it is a concatenation of RFC 3629 encodings of Unicode scalar values |
| Utf8.ConsumeOne | entry/src/main/cpp/terminal/TerminalEffects.cpp:35-47 | one turn of the checker's loop takes exactly the encoding of one scalar value: the rest decides whether the whole was well formed |
| Utf8.RangeChecksMeanReencoding | entry/src/main/cpp/terminal/TerminalEffects.cpp:37-47 | the minimum, surrogate and maximum checks accept a sequence exactly when encoding the computed value gives its bytes back, so no overlong form passes |
| Utf8.DecodeOfEncoding | entry/src/main/cpp/terminal/TerminalEffects.cpp:32-50 | every sequence of scalar values is recovered from its encoding |
| Utf8.EncodingOfDecode | entry/src/main/cpp/terminal/TerminalEffects.cpp:32-50 | decoded text encodes back to the same bytes |
| Utf8.EncodingIsUnique | entry/src/main/cpp/terminal/TerminalEffects.cpp:32-50 | a well-formed text spells one sequence of scalar values only |
| Base64.DecodeBase64 | entry/src/main/cpp/terminal/TerminalEffects.cpp:11-31 | accepts exactly padded RFC 4648 section 4 text within both size limits, and yields three octets a group less the padding |
| Base64.ReadGroup | entry/src/main/cpp/terminal/TerminalEffects.cpp:16-25 | a group is taken only with digits in front of at most two padding characters, and padding only in the last group |
| Base64.EncodeBase64 | leantty_ssh/ssh-auth-fixture/src/main.rs:2148-2169 | the shifts and masks of the encoder produce the RFC 4648 encoding of every input |
| Base64.DecodeOfEncode | entry/src/main/cpp/terminal/TerminalEffects.cpp:11-31 | decoding what the fixture encodes gives the octets back, for every input |
| Base64.ClipboardRoundTrip | entry/src/main/cpp/terminal/TerminalEffects.cpp:9-31 | the terminal accepts an encoded text exactly when the octets fit the clipboard limit of 1 MiB, and then loses nothing |
| Base64.EncodeOfDecode | entry/src/main/cpp/terminal/TerminalEffects.cpp:11-31 | re-encoding an accepted text gives it back if and only if the bits its padding leaves unused are zero |
| Base64.LenientExample | entry/src/main/cpp/terminal/TerminalEffects.cpp:19-28 | a text whose unused bits are not zero decodes like another text |
| EffectLaws.EncodingExamples | entry/src/main/cpp/terminal/TerminalEffects.cpp:14-50 | the UTF-8 of three characters and the base64 of two texts, byte by byte |
| TerminalEffects.FrameExact | entry/src/main/cpp/terminal/TerminalEffects.cpp:95-103 | framing recognises exactly ESC ] code ; payload closed by BEL or ESC backslash, for one code and payload |
| TerminalEffects.IsPrintable | entry/src/main/cpp/terminal/TerminalEffects.cpp:51-53 | printable means well-formed UTF-8 without control characters |
| TerminalEffects.CollectFields | entry/src/main/cpp/terminal/TerminalEffects.cpp:120-129 | the index loop over the metadata reads the key=value entries of the text before the first semicolon, or refuses it |
| TerminalEffects.KittyNotify | entry/src/main/cpp/terminal/TerminalEffects.cpp:119-140 | an OSC 99 payload is a capability query to answer, a notification that rings, or nothing |
| TerminalEffects.ClipboardWrite | entry/src/main/cpp/terminal/TerminalEffects.cpp:104-110 | an OSC 52 payload writes the clipboard only for the clipboard target with acceptable base64 of well-formed UTF-8 |
| TerminalEffects.RxvtNotify | entry/src/main/cpp/terminal/TerminalEffects.cpp:113-118 | an OSC 777 payload rings only as notify with a non-empty title and body of printable text |
| TerminalEffects.Effect | entry/src/main/cpp/terminal/TerminalEffects.cpp:95-140 | one complete sequence has exactly the effect its code and payload call for, and none without an owner |
| EffectLaws.ClipboardExact | entry/src/main/cpp/terminal/TerminalEffects.cpp:95-111 | text reaches the clipboard if and only if the sequence is an OSC 52 with an empty target or c whose content is base64, within the limits, of that text, and the text is UTF-8 |
| EffectLaws.ClipboardOfEncoded | entry/src/main/cpp/terminal/TerminalEffects.cpp:104-110 | every UTF-8 text of at most 1 MiB, encoded, is the text that reaches the clipboard, with either target and either terminator |
| EffectLaws.ClipboardExample | entry/src/main/cpp/terminal/TerminalEffects.cpp:104-110 | ESC ] 52;c;aGk= BEL puts hi on the clipboard |
| EffectLaws.FieldsExact | entry/src/main/cpp/terminal/TerminalEffects.cpp:123-130 | OSC 99 metadata is accepted if and only if it is a list of distinct valid key=value entries, perhaps with one more colon, and the fields are those entries |
| EffectLaws.ValueAlphabet | entry/src/main/cpp/terminal/TerminalEffects.cpp:54-60 | metadata values are visible ASCII without quotes, backslash, bar and the characters from colon to question mark |
| EffectLaws.ReplyExact | entry/src/main/cpp/terminal/TerminalEffects.cpp:122-135 | a sequence is answered if and only if it asks for p with an identifier, in either order, and the identifier comes back between the fixed bytes |
| EffectLaws.BellExact | entry/src/main/cpp/terminal/TerminalEffects.cpp:112-140 | the bell rings if and only if the sequence is a printable OSC 9 or OSC 777 notification with title and body, or a supported OSC 99 one, of at most 1 KiB |
| EffectLaws.EffectIsShort | entry/src/main/cpp/terminal/TerminalEffects.cpp:10 | whatever has an effect is short enough to be collected |
| TerminalOutput.TerminalRuntime.VtWriteUntilGround | entry/src/main/cpp/terminal/TerminalEffects.cpp:81-83 | the bounded write consumes at least one byte and stops right after the first byte that reaches ground |
| TerminalOutput.TerminalRuntime.WriteFromGround | entry/src/main/cpp/terminal/TerminalEffects.cpp:73-79 | the fast stretch up to the next ESC leaves VT, collector and reference machine in the same relation as bytes fed one by one |
| TerminalOutput.TerminalRuntime.WriteUntilGround | entry/src/main/cpp/terminal/TerminalEffects.cpp:80-92 | the bounded stretch hands over what the byte-at-a-time machine completes, and collects what it leaves open within the limit |
| TerminalOutput.TerminalRuntime.RunEffect | entry/src/main/cpp/terminal/TerminalEffects.cpp:91 | a completed sequence is handed to the effect decoder once, an empty one is not |
| TerminalOutput.TerminalRuntime.WriteOutput | entry/src/main/cpp/terminal/TerminalEffects.cpp:62-94 | one command feeds the VT exactly its bytes and hands over the same non-empty sequences, in the same order, as a byte-at-a-time machine |
| TerminalOutput.Deliver | entry/src/main/cpp/terminal/TerminalEffects.cpp:62-94 | over a whole run of commands by any owners the VT state and the system effects are those of the reference machine |
| TerminalOutput.ChunkingIsIrrelevant | entry/src/main/cpp/terminal/TerminalEffects.cpp:62-94 | however one owner's output is cut into commands, VT state, open sequence, completed sequences and effects are the same |
| TerminalOutput.OnlyWholeSequencesTakeEffect | entry/src/main/cpp/terminal/TerminalEffects.cpp:67-93 | whatever is handed over started with ESC ] in ground, ended where the VT first returned to ground, stayed within the limit, and was written by one owner without interruption |
| TerminalOutput.EveryWholeSequenceTakesEffect | entry/src/main/cpp/terminal/TerminalEffects.cpp:67-93 | every such sequence in one owner's contiguous bytes is handed over |
| TerminalOutput.EveryExcursionTakesEffect | entry/src/main/cpp/terminal/TerminalEffects.cpp:67-93 | in a run of any owners every such sequence that lies within consecutive commands of one owner is handed over, wherever the commands cut it |
| TerminalOutput.CommandsFeed | entry/src/main/cpp/terminal/TerminalEffects.cpp:70-90 | the VT receives the concatenation of all commands and nothing else |
| TerminalOutput.CollectIsBounded | entry/src/main/cpp/terminal/TerminalEffects.cpp:84-89 | dropping the collected bytes at the limit or at a second byte other than ] is the same as remembering everything and asking at the end |
| AgentCapture.IsOsc99Attention | tools/agent-compatibility/analyze_capture.py:65-98 | the early-return loop decides the analyser's OSC 99 grammar |
| AgentCapture.PatternIsPadding | tools/agent-compatibility/analyze_capture.py:16 | the analyser's base64 pattern and the terminal's hand-written decoder recognise the same padded texts |
| AgentCapture.FieldsAgree | tools/agent-compatibility/analyze_capture.py:76-87 | off a trailing colon both readers of the metadata build the same fields, except that only the terminal takes a query value |
| AgentCapture.ParsersAgree | tools/agent-compatibility/analyze_capture.py:65-98 | for every payload and nonzero owner the terminal rings exactly when the analyser accepts it without its final metadata colon and the content is base64-flagged or UTF-8 |
| AgentCapture.AgreementExact | entry/src/main/cpp/terminal/TerminalEffects.cpp:119-139 | the two parsers give the same verdict if and only if the payload is not one whose metadata ends in a colon and which the analyser takes without that colon, with base64-flagged or UTF-8 content |
| AgentCapture.TrailingColonExample | tools/agent-compatibility/analyze_capture.py:78-80 | a payload that rings although the analyser ignores it |
| AttentionObserver.MatchExact | tools/agent-compatibility/analyze_capture.py:14 | the full-match function decides the language of the OSC pattern and extracts its two groups |
| AttentionObserver.ReadOne | tools/agent-compatibility/observe_attention.py:16-32 | one turn of the scanner appends at most one event, from where it started to where it goes on, and stops on an unfinished string |
| AttentionObserver.AttentionEvents | tools/agent-compatibility/observe_attention.py:13-35 | the scanner returns all events of the capture, or fails exactly when there are more than 4096 |
| AttentionObserver.ScanOrdered | tools/agent-compatibility/observe_attention.py:13-35 | events are ordered, disjoint, non-empty and inside the capture |
| AttentionObserver.PrefixStable | tools/agent-compatibility/observe_attention.py:13-35 | in any longer capture the events ending by a checkpoint are exactly those of the capture cut there |
| AttentionObserver.SplitIsPartition | tools/agent-compatibility/observe_attention.py:45-48 | before, between and after are a partition of the events |
| AttentionObserver.SummaryCounts | tools/agent-compatibility/observe_attention.py:38-63 | the interval count obtained by subtraction is the number of events on neither side |
| AttentionObserver.OneStraddles | tools/agent-compatibility/observe_attention.py:45-47 | at most one event has bytes on both sides of a checkpoint |
| AttentionObserver.BeforeCountStable | tools/agent-compatibility/observe_attention.py:45 | the count before a checkpoint does not depend on what the capture grows to |
| AttentionObserver.Observer.Observe | tools/agent-compatibility/observe_attention.py:99-106 | a barrier action sets its mark once after validating the order, and a failing observation changes nothing |
| AttentionObserver.MarksStayInOrder | tools/agent-compatibility/observe_attention.py:99-105 | over a growing capture the persisted marks stay ordered and inside the capture |
| AttentionObserver.MarksPersist | tools/agent-compatibility/observe_attention.py:100-105 | a mark once set is never replaced |
| AttentionObserver.BeforeCountNeverChanges | tools/agent-compatibility/observe_attention.py:99-106 | every later successful observation of the growing capture reports the before count of the capture as it was when the mark was made |
| AttentionRendering.ScanOfRendering | tools/agent-compatibility/observe_attention.py:13-35 | of a capture put together from bytes that begin no string and complete strings the scanner finds exactly the plain bells and the OSC strings that ask for attention, at their places, and nothing inside a string |
| AttentionAgreement.BellIsCounted | tools/agent-compatibility/observe_attention.py:25-28 | a sequence that rings the terminal's bell is an attention event for the observer, exactly unless it is OSC 99 with metadata ending in a colon |
| AttentionLaws.AttentionExact | tools/agent-compatibility/observe_attention.py:25-28 | a frame is counted if and only if it is an OSC 9 or 777, or an OSC 99 the analyser accepts, with either terminator |
| AttentionLaws.ScanExample | tools/agent-compatibility/observe_attention.py:14-34 | a bell and a notification are counted at their positions, a bell inside a control string and a window title are not |
| AttentionLaws.SummaryMeans | tools/agent-compatibility/observe_attention.py:38-63 | the counts are those of the events that end by the first mark, start behind the second and start behind the first |
| AttentionLaws.ObservationTaken | tools/agent-compatibility/observe_attention.py:77-117 | an observation succeeds if and only if there are at most 4096 events, its own mark is not set and the marks stay in order inside the capture; a barrier marks the end of the capture |
| OutputDelivery.OutputDeliveryMetrics.RecordCallbackAttempt | leantty_ssh/src/lib.rs:490-498 | an accepted batch counts its bytes as queued, a refused one counts a retry and no bytes |
| OutputDelivery.OutputLoop.Offer | leantty_ssh/src/lib.rs:2288-2293 | a refused batch goes back unchanged in front of everything read later |
| OutputDelivery.OutputLoop.OnTick | leantty_ssh/src/lib.rs:2286-2295 | a tick offers all pending bytes when there are any, never an empty batch, and records the callback's answer |
| OutputDelivery.OutputLoop.OnData | leantty_ssh/src/lib.rs:2316-2330 | a message is buffered whole and all pending bytes are offered when it is small and alone or enough has gathered, with the callback's answer recorded |
| OutputDelivery.OutputLoop.OnPauseChanged | leantty_ssh/src/lib.rs:2306-2313 | the pause follows the watch until its sender is gone and is off for good then |
| OutputDelivery.OutputLoop.DeliverRemaining | leantty_ssh/src/lib.rs:2382-2403 | the remaining bytes are offered up to 128 times as one batch with the callback's answers, and are lost exactly when all 128 are refusals |
| OutputDelivery.RunConnectedSession | leantty_ssh/src/lib.rs:2284-2403 | in every interleaving and for all answers of the callback, delivered plus lost is what was received, in order and without empty batches, a refused batch being offered again; received equals queued plus failed bytes; pending stays below 512 KiB plus one message; the rest is lost exactly when every final answer is a refusal; the exit code is the status of the exit message that stopped the loop, and -1 when none did |
| OutputDelivery.ReadsObeyPause | leantty_ssh/src/lib.rs:2314 | whatever was read was read unpaused and below 512 KiB, and every turn offered a batch exactly when the flush policy says so |
| OutputDelivery.EveryChoiceIsATurn | leantty_ssh/src/lib.rs:2284-2403 | every tick and every data message read is a turn, with the pending bytes and the answer of its branch |
| OutputDelivery.ReadsInOrder | leantty_ssh/src/lib.rs:2314-2330 | messages are read in the order of the branches |
| OutputDelivery.WatchMeans | leantty_ssh/src/lib.rs:2284-2313 | the pause is the value sent last, or the initial one, and none for good once the sender is gone |
| OutputDelivery.LongestMeans | leantty_ssh/src/lib.rs:2314 | the longest message in the bound on pending bytes is one that was read, and none is longer |
| ChannelWriter.ChunksCover | leantty_ssh/src/lib.rs:1012-1015 | the chunks of an input concatenate to it, and all but the last have exactly 32 KiB |
| ChannelWriter.AwaitSend | leantty_ssh/src/lib.rs:1016-1036 | while a chunk is being sent every batch of sizes leads to one window change with its newest size, and no chunk is sent twice |
| ChannelWriter.SendScheduledInput | leantty_ssh/src/lib.rs:994-1046 | under any interleaving of sends and resizes the chunks go out in order, all accepted except possibly the last one offered |
| ChannelWriter.AcceptedBytes | leantty_ssh/src/lib.rs:1037-1045 | success means that the whole input was accepted; a write error leaves a prefix whose length is a multiple of 32 KiB |
| ChannelWriter.CoalescingKeepsNewest | leantty_ssh/src/lib.rs:1023-1029 | the sizes attempted are a subsequence of those queued and end with the newest one dequeued |
| ChannelWriter.RunChannelWriterCore | leantty_ssh/src/lib.rs:1048-1089 | every job is carried out as specified and reported, and a failed write does not stop later inputs |
| ChannelWriter.FirstInFirstOut | leantty_ssh/src/lib.rs:1056-1076 | over a whole run the bytes offered are leading chunks of the inputs, input by input in queue order |
| AuthStateMachine.StateMachine.constructor | leantty_ssh/leantty-ssh-core/src/authentication.rs:73-87 | a new machine is idle in its first stage with every method untried and round ids starting at 1 |
| AuthStateMachine.StateMachine.SelectNextMethod | leantty_ssh/leantty-ssh-core/src/authentication.rs:89-141 | public key, then keyboard-interactive, then password, each only if offered and untried in this stage; a partial success opens a new stage unless eight were used; nothing else changes |
| AuthStateMachine.StateMachine.SubmitPrivateKeyPassphrase | leantty_ssh/leantty-ssh-core/src/authentication.rs:143-151 | a passphrase counts only while one is awaited, and then marks the public-key method |
| AuthStateMachine.StateMachine.SubmitPassword | leantty_ssh/leantty-ssh-core/src/authentication.rs:153-161 | a password counts only while one is awaited, and then marks the password method |
| AuthStateMachine.StateMachine.PresentChallenge | leantty_ssh/leantty-ssh-core/src/authentication.rs:163-207 | a challenge opens the next round exactly when an exchange runs, none is pending and all limits hold, and every prompt keeps its place, its echo flag and its displayable characters; a refused one changes nothing |
| AuthStateMachine.StateMachine.ValidateResponses | leantty_ssh/leantty-ssh-core/src/authentication.rs:209-232 | responses close the pending round only with its id, one response per prompt and within the limits; a refusal keeps the round open |
| AuthStateMachine.SanitizeClean | leantty_ssh/leantty-ssh-core/src/authentication.rs:235-241 | sanitised text is a subsequence of the original with displayable characters only, and sanitising again changes nothing |
| AuthStateMachine.SanitizeKeeps | leantty_ssh/leantty-ssh-core/src/authentication.rs:235-241 | no displayable character is lost, and text of such characters only is left alone |
| AuthStateMachine.SanitizeConcat | leantty_ssh/leantty-ssh-core/src/authentication.rs:235-241 | sanitising works character by character |
| AuthStateMachine.EvenLimits | leantty_ssh/leantty-ssh-core/src/authentication.rs:1-7 | prompts or responses of equal size fit exactly up to 4 KiB each and 16 KiB together, at most 16 prompts |
| AuthDriver.Session.WaitForCommand | leantty_ssh/src/lib.rs:1169-1196 | the next command posted for the expected layer is returned and only other-layer commands are dropped, one a tick; otherwise the queue is closed or empty, the user left, or the time is up at that very tick |
| AuthDriver.Session.Ask | leantty_ssh/src/lib.rs:1327-1334 | a question leaves a trace exactly when the user interface takes it |
| AuthDriver.Session.RespondRound | leantty_ssh/src/lib.rs:1478-1571 | the server's challenge is shown once and within the limits, responses go out only for its round id with one response per prompt, and a round that fails says which challenge, command or exchange was at fault |
| AuthDriver.Session.ShowChallenge | leantty_ssh/src/lib.rs:1478-1512 | a challenge is shown with the next round id exactly as far as the limits allow; one too many or too large ends the run, and so does one the user interface does not take |
| AuthDriver.Session.SendResponses | leantty_ssh/src/lib.rs:1513-1571 | a command that does not fit the round shown ends the run with the refusal it calls for, a fitting one is sent once |
| AuthDriver.Session.InteractiveFlow | leantty_ssh/src/lib.rs:1442-1574 | a keyboard-interactive exchange ends after at most the remaining rounds, with the server's final answer to the last request or for the reason its last step gives |
| AuthDriver.Session.PassphraseFlow | leantty_ssh/src/lib.rs:1326-1382 | the passphrase of a key that has one is asked for when the key is due and the command taken next is used once; submitting it cannot fail, and a command of another kind ends the run as unexpected |
| AuthDriver.Session.PasswordFlow | leantty_ssh/src/lib.rs:1383-1441 | a password is asked for when it is due and the command taken next is used once; submitting it cannot fail, and a command of another kind ends the run as unexpected |
| AuthDriver.Session.Select | leantty_ssh/src/lib.rs:1280-1308 | the state machine's choice is the method due by the trace alone, never a challenge; it gives up exactly when every method offered was tried in this stage or lacks its key, or the eighth stage was passed |
| AuthDriver.Session.Advance | leantty_ssh/src/lib.rs:1280-1583 | every iteration of the driver's loop strictly lowers 4*(8 - stages) + untried methods, and a failing one says why |
| AuthDriver.Session.RunAuthentication | leantty_ssh/src/lib.rs:1245-1585 | against any server a run ends, with at most 24 method attempts, 8 stages, 8 challenges and 33 exchanges, round ids 1, 2, 3, ..., only methods due by the last answer and in order of preference, and a passphrase exactly for a key that has one; it succeeds exactly when the server said so, and every outcome is the one its last step calls for |
| AuthTrace.OtherLayerKept | leantty_ssh/src/lib.rs:1245-1256 | one layer's run leaves the other layer's limits and order as they were |
| AuthTrace.UsedOnce | leantty_ssh/src/lib.rs:1169-1196 | credentials go out in the order in which they were posted, so none goes out twice |
| AuthTrace.OrderlyMeans | leantty_ssh/leantty-ssh-core/src/authentication.rs:89-141 | trying only what is due means that a method is tried only when the server's last failure offered it, and again only after a partial success in between |
| AuthTrace.Choices | leantty_ssh/leantty-ssh-core/src/authentication.rs:110-140 | public key, keyboard-interactive, password: the first one offered, untried in this stage and with a key to use is the one due, and without one there is nothing left to try |
| AuthTrace.OneOutcome | leantty_ssh/src/lib.rs:1245-1585 | the record of a run and the environment leave exactly one outcome, and it is never an unexpected challenge: the driver's two defensive failures around the challenge cannot happen |
| AuthDriver.AuthenticateRoute | leantty_ssh/src/lib.rs:1169-1585 | over a jump-then-target run every credential answers a question of its kind and is the first command posted for its layer since the one used before; every answer and every challenge shown is the server's; nothing goes to the target before the jump host succeeded; the outcome is the one the last step of the last layer calls for |
| AuthLaws.CredentialsFit | leantty_ssh/src/lib.rs:1326-1571 | every credential sent was posted for its layer, as the kind it is used as, and answers the question shown just before; responses fit their round in number and size |
| AuthLaws.AnswersAreReal | leantty_ssh/src/lib.rs:1478-1512 | every recorded answer is the server's own, and a challenge shown reads as the server wrote it, prompt by prompt |
| AuthLaws.OutcomesMean | leantty_ssh/src/lib.rs:1245-1585 | each outcome says how the last step ended: which exchange, wait, callback, command or limit was at fault |
| AuthLaws.Preference | leantty_ssh/leantty-ssh-core/src/authentication.rs:110-134 | a method is tried only when offered last and untried in the stage, and only after every better one offered; a passphrase is used exactly for a key that has one |
| KnownHosts.HostFieldBounds | leantty_ssh/leantty-ssh-core/src/known_hosts.rs:129-150 | the host field is the first token, or the second behind a marker; comments and blank lines have none |
| KnownHosts.EditLine | leantty_ssh/leantty-ssh-core/src/known_hosts.rs:92-118 | a line is left alone exactly when none of its patterns matches |
| KnownHosts.RemoveTargetFromLine | leantty_ssh/leantty-ssh-core/src/known_hosts.rs:92-118 | the loop over the patterns keeps exactly the patterns that do not match, in order |
| KnownHosts.MatchesTarget | leantty_ssh/leantty-ssh-core/src/known_hosts.rs:120-127 | a line matches exactly when one of its patterns does |
| KnownHosts.RemoveKnownHostEntries | leantty_ssh/leantty-ssh-core/src/known_hosts.rs:17-53 | the new content is the edited lines in order, and the count is the number of lines that name the host: plainly for port 22, else in brackets with the port; only an empty host or one with control characters is refused |
| KnownHosts.FindKnownHostEntries | leantty_ssh/leantty-ssh-core/src/known_hosts.rs:17-77 | the report lists each line that names the host with its number, and the count is the same number that removal reports |
| KnownHostsEdits.RemovalKeepsLines | leantty_ssh/leantty-ssh-core/src/known_hosts.rs:37-47 | the lines of the new content are the edited lines: no edit merges, splits or reorders lines |
| KnownHostsEdits.EmitIsLine | leantty_ssh/leantty-ssh-core/src/known_hosts.rs:37-47 | an edited line stays one line with the same ending, unless it is gone |
| KnownHostsEdits.EditShape | leantty_ssh/leantty-ssh-core/src/known_hosts.rs:112-117 | an edit keeps what precedes and follows the host field and brings in no whitespace |
| KnownHostsEdits.MarkedEdit | leantty_ssh/leantty-ssh-core/src/known_hosts.rs:138-146 | behind a marker the rewritten second token is the host field again, or, when nothing is left of it, the token after it |
| KnownHostsEdits.PlainEdit | leantty_ssh/leantty-ssh-core/src/known_hosts.rs:129-150 | without a marker the rewritten first token is the host field again unless it is empty or now begins a comment or a marker |
| KnownHostsEdits.PatternsTrimmed | leantty_ssh/leantty-ssh-core/src/known_hosts.rs:191-199 | a carriage return swallowed by the line ending changes no pattern |
| KnownHostsSearch.FindRemoveFind | leantty_ssh/leantty-ssh-core/src/known_hosts.rs:25-77 | found equals removed for every content, host and port, and what is found afterwards is the number of lines the edits exposed, none in a clean file |
| KnownHostsSearch.UnmatchedSurvive | leantty_ssh/leantty-ssh-core/src/known_hosts.rs:40 | lines that do not match survive byte for byte and in order |
| KnownHostsSearch.RemainingEntries | leantty_ssh/leantty-ssh-core/src/known_hosts.rs:25-77 | finding after removing counts exactly the exposed lines |
| KnownHostsSearch.NothingRemains | leantty_ssh/leantty-ssh-core/src/known_hosts.rs:25-77 | finding after removing yields 0 if and only if no line of the file is exposed by its edit |
| KnownHostsSearch.CleanFileForgets | leantty_ssh/leantty-ssh-core/src/known_hosts.rs:25-77 | when no host field has an empty pattern or one beginning with @ or #, finding after removing yields 0 |
| KnownHostsSearch.OtherTargetsSurvive | leantty_ssh/leantty-ssh-core/src/known_hosts.rs:92-127 | in such a file another target is found afterwards in exactly the lines where one of its patterns did not match the removed target |
| KnownHostsSearch.RemovalIdempotent | leantty_ssh/leantty-ssh-core/src/known_hosts.rs:25-53 | removing twice is removing once if and only if no line of the file is exposed by its edit |
| KnownHostsSearch.ChangesIffFound | leantty_ssh/leantty-ssh-core/src/known_hosts.rs:25-77 | removal changes the file exactly when find reports something |
| KnownHostsSearch.ExposedExample | leantty_ssh/leantty-ssh-core/src/known_hosts.rs:103-117 | a one-line file in which the target is still found after its removal |
| KnownHostsLaws.OnePlainPattern | leantty_ssh/leantty-ssh-core/src/known_hosts.rs:17-23 | a line with one plain pattern belongs to a host exactly when the pattern is the host itself for port 22, and the host in brackets, a colon and the port's numeral for any other |
| KnownHosts.PatternExact | leantty_ssh/leantty-ssh-core/src/known_hosts.rs:166-186 | a pattern matches exactly when it is the host's name, or consists of the hash marker, a salt and a digest that the check accepts for that name |
| KnownHostsLaws.NamesDiffer | leantty_ssh/leantty-ssh-core/src/known_hosts.rs:17-23 | one host on two ports has two names |
| KnownHostsLaws.PatternsOfLine | leantty_ssh/leantty-ssh-core/src/known_hosts.rs:129-150 | the first word of a line holds its patterns |
| KnownHostsLaws.PatternsOfMarked | leantty_ssh/leantty-ssh-core/src/known_hosts.rs:129-150 | behind a marker the second word does |
| KnownHostsLaws.NoPatterns | leantty_ssh/leantty-ssh-core/src/known_hosts.rs:129-150 | blank lines, comments and lone markers have none |
| KnownHostsLaws.PortExample | leantty_ssh/leantty-ssh-core/src/known_hosts.rs:17-77 | finding and removing one host on port 2222 in a file of two lines, character by character |
| MoshBootstrap.ParseOfCommand | leantty_ssh/src/lib.rs:2568-2580 | for every accepted path and range, or none, parsing the printed command gives back exactly that path and range |
| MoshBootstrap.ParsedIsValid | leantty_ssh/ssh-auth-fixture/src/main.rs:249-287 | whatever the parser accepts passes the client's validators |
| MoshBootstrap.CommandOfParse | leantty_ssh/ssh-auth-fixture/src/main.rs:249-287 | an accepted command is one the client prints if and only if its port request has no leading zeros and does not repeat one port |
| MoshBootstrap.ParsesArgument | leantty_ssh/src/lib.rs:2507-2513 | a printed port request reads back as the same range |
| MoshBootstrap.PathValidatorsAgree | leantty_ssh/ssh-auth-fixture/src/main.rs:289-302 | the fixture's path predicate and the client's validator accept the same paths |
| MoshBootstrap.PathCharacters | leantty_ssh/src/lib.rs:2548-2566 | an accepted path consists of slashes and the allowed path characters |
| MoshBootstrap.OneQuotedWord | leantty_ssh/src/lib.rs:2493-2496 | the script passed to sh -c is one single-quoted word whatever accepted path and range go into it |
| MoshLaws.PathExact | leantty_ssh/src/lib.rs:2548-2566 | a path is accepted exactly when it is made of names, each behind a slash and none empty, a single or a double dot, of the allowed characters and at most 1024 long; the empty one means the default server |
| MoshLaws.RangeExact | leantty_ssh/src/lib.rs:2520-2537 | zero bounds mean no request, and otherwise bounds are accepted exactly from 1 to 65535 and in order |
| MoshLaws.CommandExamples | leantty_ssh/src/lib.rs:2493-2583 | the commands for a path and ports, for ports only and for neither, character by character |
| Decimals.ValueOfDecimal | leantty_ssh/src/lib.rs:2507-2513 | a printed port number reads back as itself |
| Decimals.DecimalOfValue | leantty_ssh/ssh-auth-fixture/src/main.rs:270-285 | a numeral is printed back exactly when it has no superfluous leading zero |
| StartGateRuns.ExpiryIsRecorded | tools/agent-compatibility/start_gate.py:36-50 | a control call that finds the deadline passed raises and still leaves expired in the file, for good, and nothing is launched after it |
| StartGate.Gate.Control | tools/agent-compatibility/start_gate.py:42-62 | cancel, ready and release change the record as one locked step; an expired deadline is recorded even though the call raises |
| StartGate.Gate.HoldStart | tools/agent-compatibility/start_gate.py:64-69 | a holder starts only on an unused gate with valid arguments |
| StartGate.Gate.HoldTurn | tools/agent-compatibility/start_gate.py:75-85 | one poll expires, starts, sleeps or returns, in that order of preference |
| StartGate.Gate.TaskStart | tools/agent-compatibility/start_gate.py:101-109 | a task starts only on an unused gate with valid durations |
| StartGate.Gate.TaskTurn | tools/agent-compatibility/start_gate.py:115-125 | one poll expires, completes after the minimum duration, sleeps or returns |
| StartGate.Gate.End | tools/agent-compatibility/start_gate.py:89-93 | the handlers cancel an open gate and nothing else |
| StartGateRuns.LaunchAfterStarted | tools/agent-compatibility/start_gate.py:81-88 | whoever launches found started in the file, holds its pid, is the only process that can still act, and is the first to launch |
| StartGate.Drive | tools/agent-compatibility/start_gate.py:30-131 | the gate's own sections, interleaved in any way, go through exactly the runs the properties below speak of |
| StartGateRuns.RunKeepsInv | tools/agent-compatibility/start_gate.py:30-131 | what every interleaving of processes, failing writes and signals keeps |
| StartGateRuns.AtMostOneLaunch | tools/agent-compatibility/start_gate.py:64-93 | every interleaving attempts at most one launch |
| StartGateRuns.OneEngaged | tools/agent-compatibility/start_gate.py:64-131 | at most one process can act on the record, the one whose pid it holds |
| StartGateRuns.TerminalForever | tools/agent-compatibility/start_gate.py:42-131 | started, task-completed, cancelled and expired records never change again |
| StartGateRuns.CancelWins | tools/agent-compatibility/start_gate.py:42-45 | once a cancel call has returned, nothing has been and nothing will be launched, and the record stays cancelled |
| StartGateRuns.LateStartsRaise | tools/agent-compatibility/start_gate.py:67-70 | after a cancel, even before any hold, every later hold and task is turned away |
| StartGateRuns.ReleasedOnce | tools/agent-compatibility/start_gate.py:46-59 | a released record got there by a release before its deadline that met 0 <= before <= hidden <= output size, and records that offset |
| StartGateRuns.DoneAfterRelease | tools/agent-compatibility/start_gate.py:76-125 | a started or completed record was released earlier and finished later, both before the one deadline |
| StartGateRuns.LaunchNeedsRelease | tools/agent-compatibility/start_gate.py:76-93 | whatever was launched had been released with valid checkpoints before the deadline |
| StartGateRuns.HoldExitCodes | tools/agent-compatibility/start_gate.py:84-85 | a holder returns 124 exactly for an expired and 125 exactly for a cancelled gate, and has launched nothing |
| StartGateRuns.TaskCodesBeforeEnd | tools/agent-compatibility/start_gate.py:118-124 | a task about to return has code 0 exactly when completed, then not before its minimum duration; 124 and 125 as a holder does |
| StartGateRuns.ExitCodesTell | tools/agent-compatibility/start_gate.py:75-131 | in every run the exit code of a process that returned, its handlers included, tells the final record: 0 completed not before the minimum, 124 expired, 125 cancelled |
| StartGateRuns.ReleasedGateLaunches | tools/agent-compatibility/start_gate.py:42-88 | held on an unused gate, released in time with valid checkpoints and polled in time, the command is launched |
| StartGateLaws.CancelReturns | tools/agent-compatibility/start_gate.py:42-62 | a cancel returns exactly when nothing has started, completed or expired |
| StartGateLaws.ReadyReturns | tools/agent-compatibility/start_gate.py:46-51 | ready answers exactly while a live holder waits before its deadline, and changes nothing |
| StartGateLaws.ReleaseReturns | tools/agent-compatibility/start_gate.py:46-59 | release opens the gate exactly then, with both marks in order and inside the capture |
| StartGateLaws.HoldStarts | tools/agent-compatibility/start_gate.py:64-69 | a holder starts exactly on an unused gate with valid arguments, and records its deadline |
| StartGateLaws.TaskStarts | tools/agent-compatibility/start_gate.py:101-109 | a task starts exactly on an unused gate with valid durations, and records its minimum |
| StartGateLaws.HolderPolls | tools/agent-compatibility/start_gate.py:75-86 | in every run a holder's poll launches a gate released in time, sleeps on one that waits, and otherwise returns 124 or 125 |
| StartGateLaws.TaskPolls | tools/agent-compatibility/start_gate.py:115-126 | in every run a task's poll completes a gate released in time once the minimum has passed, and sleeps until then |
| StartGateLaws.HandlersCancel | tools/agent-compatibility/start_gate.py:89-131 | the handlers cancel what is still open and nothing else, and then the process exits with its code or raises |
| StartGateLaws.LostWriteChangesNothing | tools/agent-compatibility/start_gate.py:30-40 | a section whose file cannot be read or written changes nothing, and returns only if there was nothing to write |
| StartGateLaws.ReleasedTaskCompletes | tools/agent-compatibility/start_gate.py:101-131 | a task released in time and polled after its minimum exits with 0 and leaves its duration on record |
| KeyFiles.CreateCommentAuxName | leantty_ssh/leantty-ssh-core/src/keygen.rs:391-417 | the transaction file is the first of a hundred candidates that does not exist |
| KeyFiles.CreatePassphraseAuxName | leantty_ssh/leantty-ssh-core/src/keygen.rs:458-478 | the temporary file is the first of a hundred candidates that does not exist |
| KeyFiles.AuxDistinct | leantty_ssh/leantty-ssh-core/src/keygen.rs:290-299 | the four transaction files and the two key files have six different names, whatever the key is called |
| KeyFiles.NameExamples | leantty_ssh/leantty-ssh-core/src/keygen.rs:391-478 | the first names of a transaction for one key and process |
| KeyComment.Prepare | leantty_ssh/leantty-ssh-core/src/keygen.rs:227-288 | nothing is written unless both files parse, open and hold one key; equal comments end the change early |
| KeyComment.Stage | leantty_ssh/leantty-ssh-core/src/keygen.rs:302-313 | staging writes nothing but the two temporary files |
| KeyComment.VerifyStaged | leantty_ssh/leantty-ssh-core/src/keygen.rs:315-351 | only a staged pair with the original identity, encryption state and the new comment passes, and it passes when nothing fails |
| KeyComment.BackUp | leantty_ssh/leantty-ssh-core/src/keygen.rs:353-354 | the backup holds the original private file before anything is replaced |
| KeyComment.Replace | leantty_ssh/leantty-ssh-core/src/keygen.rs:356-364 | the result tells which pair is left and which of the three renames failed |
| KeyComment.Commit | leantty_ssh/leantty-ssh-core/src/keygen.rs:356-369 | the result is the one the failing operations call for: first rename, second rename, putting back, and after both renames only the directory sync |
| KeyComment.CleanUp | leantty_ssh/leantty-ssh-core/src/keygen.rs:372-374 | the transaction's files are gone unless an operation failed |
| KeyComment.Transact | leantty_ssh/leantty-ssh-core/src/keygen.rs:301-370 | every state on the way holds the old pair, the new private with the old public file, or the new pair, the latter two only after verification; the result names the first step that failed |
| KeyComment.ChangeKeyComment | leantty_ssh/leantty-ssh-core/src/keygen.rs:216-376 | for any formats and failures: the result is decided by the files and the failing operations alone, the pair ends both-old or both-new except when putting back failed, success means both files carry the new comment, other files are untouched, and nothing of the transaction stays when its cleanup does not fail |
| KeyComment.NoNameExact | leantty_ssh/leantty-ssh-core/src/keygen.rs:290-293 | a change is refused for want of a name exactly when it was readable and had something to do and all hundred candidates for one of its four files exist |
| KeyComment.NamesFree | leantty_ssh/leantty-ssh-core/src/keygen.rs:391-417 | in a directory of just the pair no change is refused for want of a name |
| KeyComment.IdentityKept | leantty_ssh/leantty-ssh-core/src/keygen.rs:315-364 | at every step both files hold the original key and the same passphrase opens the private one |
| KeyComment.MixedMeansRollbackFailed | leantty_ssh/leantty-ssh-core/src/keygen.rs:357-369 | by the inputs and failing operations alone: new private beside old public is left exactly when the renames are reached, the public one fails and so does putting the private file back; both-new with an error exactly when the renames are reached and only the sync fails |
| KeyComment.MixedPairExample | leantty_ssh/leantty-ssh-core/src/keygen.rs:357-374 | a run in which just those two renames fail: the pair is mixed and no copy of the old private file is left |
| KeyPassphrase.Verify | leantty_ssh/leantty-ssh-core/src/keygen.rs:170-188 | only a temporary file with the same key and comment that the new passphrase opens passes |
| KeyPassphrase.ChangePassphrase | leantty_ssh/leantty-ssh-core/src/keygen.rs:106-198 | at every step the key file holds the old text or a verified new one; it succeeds exactly when the file opens, the new text verifies, a name is free and the four operations before the sync succeed, and is refused for want of a name exactly when all hundred exist; without failures no temporary file stays |
| Transfer.CopyWithCancel | leantty_ssh/src/transfer.rs:130-183 | Ok(n) means that n bytes read to the end went out in order and n is the expected size; otherwise a prefix did; an undisturbed copy of an unchanging source is whole and fails only when its size is not the expected one |
| Transfer.Server.OpenExclusive | leantty_ssh/src/transfer.rs:224-233 | the temporary file is created only where nothing exists |
| Transfer.Server.Rename | leantty_ssh/src/transfer.rs:259-268 | the commit moves the file only to a path that does not exist, whether or not the answer arrives |
| Transfer.TempPathsDiffer | leantty_ssh/src/transfer.rs:83-97 | different nonces give different temporary paths |
| Transfer.TempBesideTarget | leantty_ssh/src/transfer.rs:83-97 | the temporary file lies in the target's directory under one name |
| Transfer.CommitUpload | leantty_ssh/src/transfer.rs:259-283 | a successful commit leaves the whole content at the target and no temporary file |
| Transfer.CleanUp | leantty_ssh/src/transfer.rs:287-308 | unless it reports REMOTE_CLEANUP no temporary file is left |
| Transfer.Put | leantty_ssh/src/transfer.rs:198-310 | for every mix of other clients, errors, timeouts and cancels: own changes never replace a target, and touch it at all only to put the whole announced source there; Ok(n, t) means n = t, exactly the source bytes at the target and no temporary file; any later error but REMOTE_CLEANUP leaves no temporary file; undisturbed, an unchanging source of the announced size is uploaded |
| Transfer.Get | leantty_ssh/src/transfer.rs:311-395 | a download succeeds only for a regular file, with every byte read and, when the size is known, exactly that many; a missing file and another kind of node have their own codes |
| Transfer.TempPathExample | leantty_ssh/src/transfer.rs:83-97 | the temporary paths for three targets, character by character |
| Kdf.DecodeOfKdf | third-party/ssh-key/ssh-key-0.7.0-rc.11/src/kdf.rs:144-198 | encoded parameters decode to themselves in front of any continuation |
| Kdf.KdfOfDecode | third-party/ssh-key/ssh-key-0.7.0-rc.11/src/kdf.rs:144-198 | decoded parameters encode back to the bytes read |
| Kdf.KdfLengthIs | third-party/ssh-key/ssh-key-0.7.0-rc.11/src/kdf.rs:173-181 | the announced length is the number of bytes written |
| Kdf.EncodeKdf | third-party/ssh-key/ssh-key-0.7.0-rc.11/src/kdf.rs:183-198 | the writer receives exactly the encoding, and refuses only lengths beyond 32 bits |
| Kdf.DecodeKdfFrom | third-party/ssh-key/ssh-key-0.7.0-rc.11/src/kdf.rs:147-169 | the reader advances exactly past the parameters |
| PrivateKeys.PaddingIsUnique | third-party/ssh-key/ssh-key-0.7.0-rc.11/src/private.rs:740-741 | the shortest padding to a whole block is the only one below a block |
| PrivateKeys.PairLengthIs | third-party/ssh-key/ssh-key-0.7.0-rc.11/src/private.rs:760-785 | the length announced for the encrypted part is the number of bytes written, in whole blocks |
| PrivateKeys.EncodedLengthExact | third-party/ssh-key/ssh-key-0.7.0-rc.11/src/private.rs:897-914 | encoded_len of a well-formed key is the number of bytes written |
| PrivateKeys.DecodeOfPair | third-party/ssh-key/ssh-key-0.7.0-rc.11/src/private.rs:671-731 | a well-formed pair is read back with any allowed number of padding bytes |
| PrivateKeys.PairOfDecode | third-party/ssh-key/ssh-key-0.7.0-rc.11/src/private.rs:671-731 | an accepted pair is two equal check numbers, a keypair of the public key, a comment and allowed padding, and nothing else |
| PrivateKeys.DecodeOfEncode | third-party/ssh-key/ssh-key-0.7.0-rc.11/src/private.rs:807-944 | decoding an encoded key gives the key back, plain or sealed |
| PrivateKeys.DecodedEqual | third-party/ssh-key/ssh-key-0.7.0-rc.11/src/private.rs:787-805 | it equals the original if and only if it is plain or carries no comment |
| PrivateKeys.EncodeOfDecode | third-party/ssh-key/ssh-key-0.7.0-rc.11/src/private.rs:807-944 | encoding a decoded file gives its bytes back if and only if it is sealed or padded by less than a block |
| PrivateKeys.OverpaddedIsRead | third-party/ssh-key/ssh-key-0.7.0-rc.11/src/private.rs:871-892 | every plain key has a second file, with a whole extra block of padding, that is read as the same key and never written |
| PrivateKeyLaws.OverpaddedExample | third-party/ssh-key/ssh-key-0.7.0-rc.11/src/private.rs:871-892 | one key with two files |
| PrivateKeyLaws.LostCommentExample | third-party/ssh-key/ssh-key-0.7.0-rc.11/src/private.rs:858-865 | a sealed key with a comment that its file does not keep |
| PrivateKeys.EncryptedIsValid | third-party/ssh-key/ssh-key-0.7.0-rc.11/src/private.rs:521-548 | sealing gives a well-formed key of whole blocks without a visible comment |
| PrivateKeys.DecryptOfEncrypt | third-party/ssh-key/ssh-key-0.7.0-rc.11/src/private.rs:459-476 | the password that sealed a key opens it again with its keypair, public part and comment |
| PrivateKeys.DecryptOfFile | third-party/ssh-key/ssh-key-0.7.0-rc.11/src/private.rs:459-548 | a sealed key written to a file and read back opens to the original keypair, public part and comment |
| PrivateKeyCodec.EncodePair | third-party/ssh-key/ssh-key-0.7.0-rc.11/src/private.rs:735-756 | the writer receives check numbers, keypair, comment and padding |
| PrivateKeyCodec.Encode | third-party/ssh-key/ssh-key-0.7.0-rc.11/src/private.rs:916-943 | the writer receives exactly the file, and encoding fails only on lengths beyond 32 bits |
| PrivateKeyCodec.DecodePairFrom | third-party/ssh-key/ssh-key-0.7.0-rc.11/src/private.rs:671-731 | the stream reader accepts what the format says and consumes everything |
| PrivateKeyCodec.Decode | third-party/ssh-key/ssh-key-0.7.0-rc.11/src/private.rs:807-894 | the stream reader takes exactly one key of the format and leaves what follows it, or names the error |
| PrivateKeyCodec.FromBytes | third-party/ssh-key/ssh-key-0.7.0-rc.11/src/private.rs:269-273 | a whole input is a key and nothing after it |
| PrivateKeyCodec.SealKey | third-party/ssh-key/ssh-key-0.7.0-rc.11/src/private.rs:521-548 | encrypting the buffer in place is sealing the encoded pair |
| PrivateKeyCodec.OpenKey | third-party/ssh-key/ssh-key-0.7.0-rc.11/src/private.rs:459-476 | decrypting a copy of the ciphertext in place and decoding it is opening the key |
| PrivateKeyLaws.LawsAreConsistent | third-party/ssh-key/ssh-key-0.7.0-rc.11/src/private.rs:459-548 | the assumptions about key codecs and ciphers can be met together |
| FormatLaws.U32Order | third-party/ssh-key/ssh-key-0.7.0-rc.11/src/private.rs:735-756 | numbers are written most significant byte first: they compare as their encodings do byte by byte |
| FormatLaws.PaddingCounts | third-party/ssh-key/ssh-key-0.7.0-rc.11/src/private.rs:176 | the padding counts 1, 2, 3 |
| FormatLaws.PlainFile | third-party/ssh-key/ssh-key-0.7.0-rc.11/src/private.rs:916-943 | a plain key's file byte by byte: magic, none, none, no options, one key, its public part, and the pair of two equal check numbers, keypair, comment and padding to eight |
| FormatLaws.SealedFile | third-party/ssh-key/ssh-key-0.7.0-rc.11/src/private.rs:916-935 | a sealed key's file byte by byte: magic, cipher, bcrypt, salt and rounds, one key, its public part, the ciphertext and the tag |
| FormatLaws.ReadsHeader | third-party/ssh-key/ssh-key-0.7.0-rc.11/src/private.rs:807-826 | those headers are read back to cipher, parameters and public part, whatever follows |
| FormatLaws.SealedPair | third-party/ssh-key/ssh-key-0.7.0-rc.11/src/private.rs:521-548 | what is encrypted is the pair, padded to the cipher's own block size |
| FormatLaws.WrongPassword | third-party/ssh-key/ssh-key-0.7.0-rc.11/src/private.rs:459-473 | a key is opened only if the cipher accepts the password and the two check numbers agree |

## Left out

- Ghostty, russh, russh_sftp, mosh_client, tokio and the cryptography: they appear as assumptions. Ghostty: from ground only ESC leaves ground, and the bounded write stops right after the first byte that reaches ground. SFTP: exclusive create, rename without replacing, operations of one session take effect in order. Ciphers: the same password undoes encryption. Keypair codec: delimits itself. ssh-encoding and ssh-cipher are not part of this model: names, block sizes and the largest accepted length are parameters.
- HMAC and base64 inside hashed `known_hosts` patterns: an arbitrary check of salt, digest and target.
- Page switching, search refresh and event sequence numbers around the effect decoder.
- The metrics tick, the channel writer's exit and the closing messages of the session loop: they move no output bytes.
- Real time: a timeout may fire at any wait; ticks, delays and the 200 ms progress interval are choices.
- The fallback of the observer to a final summary, its `finish` file handling and the afterHiddenKinds list.
- `run_mosh_protocol`, reachability, callback construction, session maps, logging and record builders.
- `inspect_private_key`, `export_key_pair`, key generation, PEM armour, PPK, certificates and signatures.
- Access modes of key files and other writers to the same key files: during a key transaction nobody else changes its files, and looking for a free name does not itself fail.
- Writing a staged file, flushing and syncing it is one operation that fails or not, and so is copying and syncing a backup; a failed one may leave any bytes.
- Key paths that do not name a file (a trailing slash, `..`): the model works in one directory with plain names.
- The kind of error a truncated private-key file gives: a length prefix beyond the input is reported as a length error at once.
- KnownHosts.RemoveKnownHostEntries: counts are unbounded, the 32-bit counter of the source is not modelled, because a file of that many lines is out of reach.
- Transfer.Put: assumes that the temporary path differs from the target, which fails for at most one of the 2^64 nonces (Transfer.TempPathsDiffer), and that other clients leave the temporary path alone once it was created.
- PrivateKeys.DecodeOfEncode: assumes lengths within the reader's limit, because ssh-encoding is not part of this model.
- PrivateKeys.EncryptWith: reports every failure of key derivation and encryption as one error.
- StartGate.Gate.HoldTurn: a process that stops for good without running its handlers is one that takes no further step.
- AuthDriver.Session.RunAuthentication: a private key that cannot be loaded is counted as a request without an answer.
