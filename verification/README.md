# LenOS in Dafny

A model of the parts of LenOS where several functions must agree over time or over every
input, and proofs of what they promise. Every module is a plain Dafny 4.11 file;
`dafny verify dfyconfig.toml` checks the project.

| file | models |
|---|---|
| `AcpProtocol.dfy` | the ACP client's read loop and its calls, one step at a time, on values: the agent, the clock and the pipe are inputs |
| `AcpGuarantees.dfy` | what every run of that loop and every sequence of calls keeps, and why the loop ends |
| `AcpAnswers.dfy` | how each iteration goes on or ends, what is written in answer to each input, and what each call reports |
| `AcpClient.dfy` | the client object whose methods update its fields, proved to follow the protocol |
| `CodexConfig.dfy` | `deep_merge` and the layered `CODEX_CONFIG` value |
| `NipGsConditions.dfy`, `EnvelopeJson.dfy`, `Base64.dfy`, `NipGs.dfy`, `NipGsSigning.dfy` | the NIP-GS signature codec: conditions, envelope JSON, base64, armor, acceptance pipeline, preimage, signer and verifier |
| `UsageTracker.dfy` | per-turn usage deltas against a specification over the whole history |
| `Schnorr.dfy` | double-and-add and BIP-340 signing over an abstract curve |
| `WebSocket.dfy` | RFC 6455 framing over a socket that delivers bytes in any chunks |
| `Filters.dfy` | the rule matcher and the two subscription resolvers that must agree with it |
| `PoolLifecycle.dfy` | wake tokens and capped exponential back-off |
| `AudioFramer.dfy` | the audio worklet's re-chunking buffer |
| `Text.dfy`, `Numbers.dfy`, `Wrappers.dfy` | decimal numerals and splitting; bytes and powers of two; `Option` and `Result` |

How the ACP loop is modelled. One iteration sees an `Env`: the clock at the deadline check,
what is ready when the select completes (a frame, a steer), whether the write of that iteration
succeeds, fails or is cut off, and the two later clock readings. A run is a function from
iteration numbers to `Env`, so it may be any message stream, dense or silent. A call that stops
after `cut` iterations is an abandoned future. Steers are numbered in order of acceptance and
permission requests in order of arrival, because agents may reuse ids. A steer's ack sender ends
either `Acked` or `Dropped` (it went out of scope unsent).

Where the code and its comments disagree, the model follows the code:

- The comment at crates/lenos-acp/src/acp.rs:1316 says the pending steer is drained on every
  return. It is not on the two `?` exits at lines 1685 and 1699: `PropagatingExitsDrop` gives the
  runs, and `EveryReturnAcks` says exactly which ended runs leave a steer without an ack.
- A steer accepted while a cancel drains can leave a stored hard deadline with no prompt
  (`UnpairedIsReachable`). `CancelPairsWhen` and `GracePairsWhen` give the exact condition on the
  client before the call: a prompt to cancel and a receiver installed (and a grace that is not
  zero).
- The two scope tests differ on every second spelling of a channel: the matcher compares
  spellings, the resolver parses them (`ScopesDiffer`). `ScopesAgreeWhen` gives the exact condition on a rule's list; the direction
  the subscription relies on always holds (`MatchedIsSubscribed`).
- A WebSocket timeout after the header was read loses the frame: `TimeoutInsideFrameLosesFraming`
  runs a receiver that then reports a close nobody sent. `ReceiveAll` gives the exact condition on
  the timeouts of a run, by how many bytes were still to come at each of them.

## Model

| member | source | states |
|---|---|---|
| AcpGuarantees.SteersResolvedExactlyOnce | crates/lenos-acp/src/acp.rs:1318-1668 | in every run at most one steer is in flight, its id differs from the prompt's, every other accepted steer has exactly one resolution, and an exit leaves none in flight |
| AcpGuarantees.SteersResolvedForCause | crates/lenos-acp/src/acp.rs:1337-1668 | every resolution in every run has its right cause in the input: success or rejection only from a response with that steer's own id, neutral acks and drops only in the iteration that ends the loop |
| AcpGuarantees.PendingEndsOnlyByResponseOrExit | crates/lenos-acp/src/acp.rs:1553-1650 | the in-flight slot empties exactly when the steer's own response is read or the loop ends |
| AcpGuarantees.ReturnsAckPending | crates/lenos-acp/src/acp.rs:1352-1376 | an exit with a steer in flight drops its sender exactly on a permission or unknown-method frame read in time, and otherwise sends the neutral ack |
| AcpGuarantees.EveryReturnAcks | crates/lenos-acp/src/acp.rs:1316-1702 | over a whole ended run some steer went unacked exactly when the iteration that ended it read, in time, a permission or unknown-method frame with a steer in flight, or had the write of a steer cut off |
| AcpGuarantees.PropagatingExitsDrop | crates/lenos-acp/src/acp.rs:1684-1700 | in every loop with a receiver, at any moment before its deadline, a broken pipe at either `?` drops the sender of a steer that was written |
| AcpGuarantees.AbandonedCallDrops | crates/lenos-acp/src/acp.rs:1318-1334 | a call dropped at an await point drops exactly the sender in flight |
| AcpGuarantees.RunKeepsSteerInv | crates/lenos-acp/src/acp.rs:1318-1668 | the accounts of accepted, pending and resolved steers, with fresh written ids, hold after any number of iterations |
| AcpGuarantees.HardDeadlineMovesOnlyOnInjection | crates/lenos-acp/src/acp.rs:1575-1647 | one iteration moves the hard deadline exactly on a timely injected response that extends it, to a full budget from then |
| AcpGuarantees.DeadlineMovesOnlyOnInjectionInRuns | crates/lenos-acp/src/acp.rs:1575-1647 | the same at any iteration of any run: never on startedNewTurn, an unknown or an absent outcome |
| AcpGuarantees.RunMovesDeadlineWhen | crates/lenos-acp/src/acp.rs:1575-1647 | over any run the deadline has moved exactly when some iteration read the timely response of an injected steer that extends it |
| AcpGuarantees.HardDeadlineNeverMovesBack | crates/lenos-acp/src/acp.rs:1611-1625 | the hard deadline is monotone along every run |
| AcpGuarantees.StoredDeadlineFollows | crates/lenos-acp/src/acp.rs:1611-1625 | the client's stored deadline is the loop's once that has moved, and untouched before |
| AcpGuarantees.IdleClockMovesOnJson | crates/lenos-acp/src/acp.rs:1525-1551 | one iteration restarts the idle clock exactly on a timely JSON frame, from the moment it parsed or, for a tool call, from its handling |
| AcpGuarantees.IdleDeadlineFollowsJson | crates/lenos-acp/src/acp.rs:1525-1679 | in every run the idle deadline is one idle timeout after the last JSON frame, whatever blank lines, unparsable lines and steers came since |
| AcpGuarantees.StepTimesOut | crates/lenos-acp/src/acp.rs:1337-1376 | an iteration times out exactly when a deadline has passed or nothing else is ready, with the kind of the earlier deadline |
| AcpGuarantees.TimeoutKindIsEarlierDeadline | crates/lenos-acp/src/acp.rs:1337-1376 | every run that ends in a timeout reports the kind of the deadline that was earlier |
| AcpGuarantees.LoopTerminates | crates/lenos-acp/src/acp.rs:1347-1376 | for every message stream, with an advancing clock and finitely many steers, the loop ends |
| AcpGuarantees.ExitIsFinal | crates/lenos-acp/src/acp.rs:1335-1706 | a run that has ended does nothing more |
| AcpGuarantees.ResultIsAwaitedResponse | crates/lenos-acp/src/acp.rs:1651-1668 | the value returned comes from the error-free response to the awaited id, never from a steer response or an agent request reusing the id |
| AcpAnswers.AwaitedResponseEnds | crates/lenos-acp/src/acp.rs:1653-1665 | the response to the awaited id, read in time, ends the loop with its result or its error (code -32000 where none is given) |
| AcpAnswers.OnlyTheAwaitedResponseAnswers | crates/lenos-acp/src/acp.rs:1653-1665 | no other frame ends it so |
| AcpAnswers.RunAnswersWhen | crates/lenos-acp/src/acp.rs:1335-1668 | a run ends with an answer exactly when some iteration reads, in time, the awaited response |
| AcpAnswers.PromptStopsWhen | crates/lenos-acp/src/acp.rs:764-825 | a prompt reports a stop reason exactly when its loop reads, in time, the response to its own id that names it |
| AcpAnswers.PromptReportsAnswer | crates/lenos-acp/src/acp.rs:1960-1966 | stop reasons, a missing or unknown one and errors are each reported as such, and id and deadline are gone |
| AcpAnswers.PromptReportsFailure | crates/lenos-acp/src/acp.rs:764-825 | every other end of the loop, and a failed or cut write before it, is reported as it is, with the client it leaves |
| AcpAnswers.PromptStarts | crates/lenos-acp/src/acp.rs:764-805 | the loop of a prompt waits for the id it sent, with its two budgets and the installed receiver |
| AcpAnswers.StepGoesOnWhen | crates/lenos-acp/src/acp.rs:1335-1706 | the loop goes on exactly on an accepted steer, a blank or unparsable line, and a frame that is neither the awaited response nor a request that cannot be answered |
| AcpAnswers.ReadFailuresEnd | crates/lenos-acp/src/acp.rs:1494-1513 | the end of the agent, an oversized line and a read error each end the loop as themselves |
| AcpAnswers.TimeoutsSayHowLong | crates/lenos-acp/src/acp.rs:1352-1376 | an idle timeout carries the configured wait, a hard one the silence |
| AcpAnswers.SteerGoesOut | crates/lenos-acp/src/acp.rs:1413-1487 | a steer with a transport is written under the next id and is in flight; a failed write is acked, a cut one dropped |
| AcpAnswers.SteerIsRefused | crates/lenos-acp/src/acp.rs:1393-1437 | without a transport it is refused at once, with nothing written |
| AcpAnswers.SteerIsAnswered | crates/lenos-acp/src/acp.rs:1553-1650 | the response to the steer in flight is passed on with its code, outcome or rejection, and the loop goes on |
| AcpAnswers.PermissionIsAnswered | crates/lenos-acp/src/acp.rs:1882-1957 | a permission request is answered with the id of the first allow_once option, else of the first reject_once, and the loop goes on |
| AcpAnswers.PermissionIsLeftWaiting | crates/lenos-acp/src/acp.rs:1937-1957 | where the answer cannot be written the request is kept waiting and the call fails |
| AcpAnswers.PermissionIsRefused | crates/lenos-acp/src/acp.rs:1882-1940 | a request with no id, no options or no option to choose is refused, with nothing written |
| AcpAnswers.UnknownMethodIsRefused | crates/lenos-acp/src/acp.rs:1687-1702 | an unknown request is told so and the loop goes on; an unknown notification changes nothing |
| AcpAnswers.ReceiverComesAndGoes | crates/lenos-acp/src/acp.rs:897-914 | a receiver is installed once, taken by the call that reads, and cleared at any time |
| AcpGuarantees.RunIdIsFreshest | crates/lenos-acp/src/acp.rs:1779-1811 | while the loop runs the known run id is the one announced last |
| AcpGuarantees.SteerTransportIsRight | crates/lenos-acp/src/acp.rs:1413-1437 | a steer that goes out names the freshest run id, or uses the extension, and that only if advertised |
| AcpGuarantees.PermissionPrefersAllow | crates/lenos-acp/src/acp.rs:1904-1940 | the first allow_once option decides whenever there is one, else the first reject_once; refused are exactly a deciding allow_once without an id and a list with neither |
| AcpProtocol.FindKind | crates/lenos-acp/src/acp.rs:1904-1906 | the first option of the kind, or none when there is none |
| AcpGuarantees.CallsKeepWireInv | crates/lenos-acp/src/acp.rs:764-825 | over any sequence of complete or abandoned calls prompt and steer ids strictly increase, permission responses answer requests in order and at most one each |
| AcpGuarantees.AnsweredAtMostOnce | crates/lenos-acp/src/acp.rs:1882-1957 | two permission responses on the wire never answer the same request, and each carries its request's id |
| AcpGuarantees.CallsKeepPaired | crates/lenos-acp/src/acp.rs:934-1042 | with no receiver installed at a cancel, a stored deadline exists between calls exactly when a prompt id does |
| AcpGuarantees.PromptPairs | crates/lenos-acp/src/acp.rs:764-825 | a prompt leaves id and deadline exactly after a timeout or an abandoned call, and then the loop's final deadline |
| AcpGuarantees.CancelPairsWhen | crates/lenos-acp/src/acp.rs:934-1042 | from any moment on, a cancel keeps deadline and prompt paired under every agent and clock exactly when there is no prompt to cancel or no receiver installed |
| AcpGuarantees.GracePairsWhen | crates/lenos-acp/src/acp.rs:978-1042 | the same for a grace drain, which also keeps them paired when the grace is zero |
| AcpGuarantees.CancelLeavesDeadlineWhen | crates/lenos-acp/src/acp.rs:994-1042 | for each single cancel: a deadline stays behind exactly when the drain ran and one of its iterations renewed it |
| AcpGuarantees.SteerDuringDrainUnpairs | crates/lenos-acp/src/acp.rs:994-1042 | with any prompt to cancel, a receiver and time left, one injected steer during the drain leaves a deadline without a prompt |
| AcpGuarantees.UnpairedIsReachable | crates/lenos-acp/src/acp.rs:764-1042 | three calls on a fresh client that end so |
| AcpGuarantees.CancelInheritsBudget | crates/lenos-acp/src/acp.rs:934-963 | a cancel after a timed-out prompt drains on that turn's final deadline, with a 30 second floor |
| AcpAnswers.CancelWrites | crates/lenos-acp/src/acp.rs:994-1026 | a cancel answers a waiting permission request as cancelled, then notifies the agent; where a write fails it stops there and says so |
| AcpAnswers.NothingToCancel | crates/lenos-acp/src/acp.rs:999-1004 | without a prompt nothing is written or changed |
| AcpAnswers.DrainStarts | crates/lenos-acp/src/acp.rs:1027-1040 | the drain waits for the cancelled id, 30 seconds idle at most, with the time that is left |
| AcpAnswers.CancelReportsAnswer | crates/lenos-acp/src/acp.rs:1032-1041 | the answer to the cancelled id during the drain is what the cancel reports |
| AcpAnswers.DrainBudgets | crates/lenos-acp/src/acp.rs:934-992 | the deadline of each kind of drain |
| AcpGuarantees.GraceNeverReportsHardTimeout | crates/lenos-acp/src/acp.rs:978-992 | a grace drain never reports a hard timeout, and reports a drain timeout exactly in its place |
| AcpClientObject.AcpClient.ReadUntilResponse | crates/lenos-acp/src/acp.rs:1295-1706 | the loop with its local deadlines and pending steer leaves the object, the exit and the list of resolved steers that the protocol gives |
| AcpClientObject.AcpClient.HandleMessage | crates/lenos-acp/src/acp.rs:1549-1703 | one parsed frame changes the object and the loop's locals as the protocol says |
| AcpClientObject.AcpClient.SteerArm | crates/lenos-acp/src/acp.rs:1393-1487 | the steer arm picks a transport, burns an id, writes, and keeps or releases the sender as the protocol says |
| AcpClientObject.AcpClient.DispatchVerb | crates/lenos-acp/src/acp.rs:1671-1703 | notifications and agent requests change the object, or leave through `?`, as the protocol says |
| AcpClientObject.AcpClient.HandlePermissionRequest | crates/lenos-acp/src/acp.rs:1882-1957 | a permission request is stored, answered and cleared, or left pending on error, as the protocol says |
| AcpClientObject.AcpClient.SessionPrompt | crates/lenos-acp/src/acp.rs:764-825 | the whole prompt call on the object equals the protocol's |
| AcpClientObject.AcpClient.CancelWithCleanupUntil | crates/lenos-acp/src/acp.rs:994-1042 | the cancel steps on the object equal the protocol's |
| AcpClientObject.AcpClient.CancelWithCleanup | crates/lenos-acp/src/acp.rs:934-963 | as above with the inherited deadline |
| AcpClientObject.AcpClient.CancelWithCleanupGrace | crates/lenos-acp/src/acp.rs:978-992 | as above with the grace deadline; never a hard timeout |
| AcpClientObject.AcpClient.InstallSteerRx | crates/lenos-acp/src/acp.rs:897-904 | installs a receiver, or panics unchanged when one is installed |
| AcpClientObject.AcpClient.ClearSteerRx | crates/lenos-acp/src/acp.rs:912-914 | removes any receiver |
| AcpClientObject.AcpClient.Serve | crates/lenos-acp/src/acp.rs:764-1042 | any sequence of calls on one object follows the protocol, keeps ids fresh and permissions answered at most once, and keeps deadline and prompt id paired when drains run without a receiver |
| CodexConfig.DeepMerge | crates/lenos-acp/src/acp.rs:219-240 | merging entry by entry in any order gives the recursive overlay |
| CodexConfig.MergeAtPath | crates/lenos-acp/src/acp.rs:216-240 | what a merge holds at every path of every depth, from what the two sides hold there |
| CodexConfig.UntouchedPathsSurvive | crates/lenos-acp/src/acp.rs:250-259 | a path no later layer mentions keeps its value at every depth |
| CodexConfig.LastMentionWins | crates/lenos-acp/src/acp.rs:250-259 | the last layer to mention a path decides it unless it holds an object |
| CodexConfig.ForceAtPath | crates/lenos-acp/src/acp.rs:337-353 | forcing sets network_access and changes no path outside it |
| CodexConfig.BuildCodexConfigEnv | crates/lenos-acp/src/acp.rs:268-356 | errs exactly on a layer that is not an object or a sandbox setting that is not one, naming the first layer at fault; otherwise prints the left fold of the layers, parent last, with network access forced |
| CodexConfig.EntriesInOrder | crates/lenos-acp/src/acp.rs:279-284 | the entries are every value under CODEX_CONFIG, in order, and no other |
| CodexConfig.BlamesOne | crates/lenos-acp/src/acp.rs:295-353 | the input settles which failure is reported |
| CodexConfig.RerunIsStable | crates/lenos-acp/src/acp.rs:268-356 | the result as the only entry under the same parent gives the same result |
| CodexConfig.BuildTwice | crates/lenos-acp/src/acp.rs:268-356 | the same on the environment strings, asking only that this one output is read back as it was printed |
| NipGsConditions.ParseDecimalExact | crates/git-sign-nostr/src/lib.rs:632-651 | accepts exactly the canonical decimal numerals below 2^32 |
| NipGsConditions.ReadClauseExact | crates/git-sign-nostr/src/lib.rs:570-579 | a clause is read exactly from its printed form within its range |
| NipGsConditions.ClauseForms | crates/git-sign-nostr/src/lib.rs:562-584 | the three clause forms and their ranges, as they are written |
| NipGsConditions.ReadConditionsExact | crates/git-sign-nostr/src/lib.rs:550-561 | a conditions string is read exactly when it is the printed form of valid clauses, and as those clauses |
| NipGsConditions.ValidateConditions | crates/git-sign-nostr/src/lib.rs:562-584 | accepts exactly the documented grammar and ranges |
| NipGsConditions.EnforceConditions | crates/git-sign-nostr/src/lib.rs:591-616 | on accepted text succeeds exactly when t lies strictly between the largest lower and the smallest upper bound; otherwise names the first violated clause |
| NipGsConditions.EnforcedMeansBetween | crates/git-sign-nostr/src/lib.rs:591-616 | clause-by-clause enforcement is the interval test |
| Base64.DecodeExact | crates/git-sign-nostr/src/lib.rs:938-941 | decoding inverts encoding and nothing else decodes |
| Base64.Alphabet | crates/git-sign-nostr/src/lib.rs:938-941 | the alphabet of section 4 of RFC 4648, in order |
| Base64.QuantumValue | crates/git-sign-nostr/src/lib.rs:938-941 | four characters are the same number as the three bytes |
| Base64.PaddedQuantum | crates/git-sign-nostr/src/lib.rs:938-941 | one and two bytes left over are padded over zero bits |
| Base64.Foobar | crates/git-sign-nostr/src/lib.rs:938-941 | a known answer of section 10 of RFC 4648 |
| NipGs.EnvelopeIsPrinted | crates/git-sign-nostr/src/lib.rs:924-935 | the format string is the compact print of the envelope object |
| NipGs.ParseOfBuild | crates/git-sign-nostr/src/lib.rs:1345-1446 | with any JSON reader that undoes the compact print, the parser returns the fields a valid envelope was built from |
| NipGs.ParsedIsValid | crates/git-sign-nostr/src/lib.rs:1345-1446 | with any reader at all, whatever the parser returns satisfies every field check |
| NipGs.ValidFields | crates/git-sign-nostr/src/lib.rs:1345-1462 | the field checks, written out: lengths, lowercase hex, range, keys, no self-attestation, conditions |
| NipGs.ParseArmorExact | crates/git-sign-nostr/src/lib.rs:1464-1493 | armor is parsed exactly from its three lines, with no trailing blanks |
| NipGs.ArmorLayout | crates/git-sign-nostr/src/lib.rs:938-941 | the three armor lines, as they are written |
| NipGs.HasNonStringWhitespace | crates/git-sign-nostr/src/lib.rs:1700-1722 | the two-flag pass finds exactly the white space outside strings |
| NipGs.ExtractPkAgrees | crates/git-sign-nostr/src/lib.rs:1084-1097 | on every canonical envelope the early scan reports the envelope's key |
| NipGs.ExtractPkExact | crates/git-sign-nostr/src/lib.rs:1084-1097 | on any text the scan reports exactly 64 hex characters after the first marker |
| NipGs.AcceptExact | crates/git-sign-nostr/src/lib.rs:1099-1188 | with any such reader and any text decoder right on ASCII, the verifier accepts exactly the canonical armored envelopes of valid fields within the size limit, and returns those fields |
| NipGs.FaithfulReadersExist | crates/git-sign-nostr/src/lib.rs:1143-1150 | what is asked of the decoder and the reader has a model: an ASCII decoder and a reader that accepts exactly the compact print |
| NipGs.PreimageInjective | crates/git-sign-nostr/src/lib.rs:895-916 | with attestations on both sides or neither, the preimage determines time, attestation and payload |
| NipGs.PreimageCollision | crates/git-sign-nostr/src/lib.rs:895-916 | an unattested and an attested preimage collide exactly when the payload spells the binding |
| NipGs.PreimageSeparated | crates/git-sign-nostr/src/lib.rs:895-916 | they never collide when the payload does not begin with 64 hex characters and a colon |
| NipGs.GitObjectsAreSeparated | crates/git-sign-nostr/src/lib.rs:886-894 | commits and tags do not begin so |
| NipGs.PreimageLayout | crates/git-sign-nostr/src/lib.rs:895-916 | both forms of the preimage, as they are written |
| NipGsSigning.FeedPreimage | crates/git-sign-nostr/src/lib.rs:895-916 | feeding the engine piece by piece produces the preimage |
| NipGsSigning.LoadExact | crates/git-sign-nostr/src/lib.rs:483-548 | a tag loads exactly from a JSON array of "auth" and three valid fields, within 1024 bytes |
| NipGsSigning.LoadedIsShort | crates/git-sign-nostr/src/lib.rs:483-548 | the 1024-byte cap bounds the conditions of a loaded tag by 815 characters |
| NipGsSigning.SignExact | crates/git-sign-nostr/src/lib.rs:943-1063 | the signer succeeds exactly in u32 time with no tag, or one of another key that vouches for the signer at this time, and signs the preimage of its own fields |
| NipGsSigning.SignRefusesWhen | crates/git-sign-nostr/src/lib.rs:1001-1049 | each refusal has its condition, the first that is not met |
| NipGsSigning.SignedIsValid | crates/git-sign-nostr/src/lib.rs:943-1063 | what the signer emits is the armored envelope of valid fields, at most 1254 bytes of JSON |
| NipGsSigning.SignedVerifies | crates/git-sign-nostr/src/lib.rs:943-1334 | it fits every size limit and verifies with the same fields, the key of the early scan and, with a tag, a satisfied owner |
| NipGsSigning.VerifyExact | crates/git-sign-nostr/src/lib.rs:1099-1334 | for every content and payload: success with an envelope and an owner status exactly when the content carries that envelope, its signature covers the payload and the owner stands so |
| NipGsSigning.VerifyRejectsWhen | crates/git-sign-nostr/src/lib.rs:1099-1240 | a bad signature is reported exactly for an accepted envelope whose signature does not cover the payload; everything else is malformed |
| NipGsSigning.AcceptedTextIsUnique | crates/git-sign-nostr/src/lib.rs:1168-1188 | no second text is accepted for the same envelope |
| NipGsSigning.LawsAreConsistent | crates/git-sign-nostr/src/lib.rs:943-1063 | what is asked of the curve, the decoder and the reader has a model, with a verifier that rejects every string that is not a key and an agent that can sign with and without a tag |
| UsageTracking.UsageTracker.BeginTurn | crates/lenos-acp/src/usage.rs:229-232 | keeps the tracker equal to what its history says |
| UsageTracking.UsageTracker.Record | crates/lenos-acp/src/usage.rs:258-376 | keeps the tracker equal to what its history says, in all three cases |
| UsageTracking.UsageTracker.TakeUsage | crates/lenos-acp/src/usage.rs:385-402 | returns what the history says: the last in-turn snapshot measured from the session's committed baseline |
| UsageTracking.UsageTracker.Replay | crates/lenos-acp/src/usage.rs:229-402 | any interleaving on a fresh tracker publishes exactly the history's records |
| UsageTracking.ReportAccounts | crates/lenos-acp/src/usage.rs:258-376 | every record against the committed counts: when it is unreliable, when each field is absent, and that each delta added to the earlier count gives the later one |
| UsageTracking.BaselineIsLastCommit | crates/lenos-acp/src/usage.rs:336-402 | the committed counts are those of the last published record or of a later notification outside any turn |
| UsageTracking.InFlightExact | crates/lenos-acp/src/usage.rs:229-232 | a turn is open exactly from a begin up to the next take |
| UsageTracking.SnapshotIsLast | crates/lenos-acp/src/usage.rs:243-256 | the snapshot is the last notification of the open turn for its own session |
| UsageTracking.OtherSessionsAreIgnored | crates/lenos-acp/src/usage.rs:373-376 | a notification for another session changes no report, baseline or count |
| UsageTracking.SequenceNumbersCount | crates/lenos-acp/src/usage.rs:270-280 | each session's published records are numbered 1, 2, 3, ... |
| UsageTracking.ReportsOfIsFilter | crates/lenos-acp/src/usage.rs:385-402 | a session's records are the published records filtered to it |
| UsageTracking.DeltasAddUp | crates/lenos-acp/src/usage.rs:270-306 | conservation: published input and output deltas add up to last minus first cumulative count |
| UsageTracking.NeighboursAccount | crates/lenos-acp/src/usage.rs:258-376 | each record of a session accounts from the one before it, the first from nothing |
| UsageTracking.OtherDeltasAddUp | crates/lenos-acp/src/usage.rs:286-335 | conservation of cost, total and cached counts where they were always known |
| UsageTracking.TotalsDoNotInterfere | crates/lenos-acp/src/usage.rs:308-335 | total and cached fields influence nothing else that is published |
| Schnorr.PMul | scripts/smoke-agent.py:56-62 | double-and-add equals k-fold addition for every k, and fails only at the infinite point |
| Schnorr.SchnorrSign | scripts/smoke-agent.py:78-93 | every signature satisfies the BIP-340 verification equation through both parity flips; each of the three failures has its exact condition on the key, the message and the hashes |
| Schnorr.EquationHolds | scripts/smoke-agent.py:91-93 | s = k + e*d mod n gives s*G - e*P = R |
| Schnorr.EvenTwin | scripts/smoke-agent.py:82-90 | the flipped scalar gives the even-y point with the same x |
| Schnorr.LawsAreConsistent | scripts/smoke-agent.py:43-53 | the assumed curve laws have a model |
| WebSocket.MaskUndoes | scripts/smoke-agent.py:150-150 | masking twice with one key is the identity |
| WebSocket.MaskTakesTurns | scripts/smoke-agent.py:150-150 | the four mask bytes are used in turn |
| WebSocket.BigEndianRoundTrip | scripts/smoke-agent.py:154-157 | packed lengths unpack to themselves |
| WebSocket.FrameRoundTrip | scripts/smoke-agent.py:146-190 | in all three length forms the frame sent parses to its payload and leaves the rest |
| WebSocket.FrameLayout | scripts/smoke-agent.py:151-158 | the bytes of a text frame before its mask |
| WebSocket.PlainFrameParses | scripts/smoke-agent.py:178-191 | unmasked frames of every opcode are read as they are, in all three length forms |
| WebSocket.OpcodesMean | scripts/smoke-agent.py:192-209 | what each opcode in front of the stream makes of it |
| WebSocket.ParseExtends | scripts/smoke-agent.py:178-191 | bytes that come later do not change the frame in front |
| WebSocket.Receiver.Read | scripts/smoke-agent.py:168-176 | n bytes off the stream however they are chunked; nothing lost on a timeout; end of stream only when too short |
| WebSocket.Receiver.ReadHeader | scripts/smoke-agent.py:178-184 | the header fields of the frame at the front of the stream, or how many bytes had arrived and which are lost |
| WebSocket.Receiver.ReadPayload | scripts/smoke-agent.py:184-191 | the unmasked payload, or how many bytes had arrived and which are lost |
| WebSocket.Receiver.ReadFrame | scripts/smoke-agent.py:178-191 | exactly the frame at the front of the stream; when the socket stops inside it, the loss is fixed by how many of its bytes had arrived, and is none exactly below two |
| WebSocket.Receiver.SkipControl | scripts/smoke-agent.py:178-209 | answers each ping and skips each pong up to the first other frame, or up to where the socket stopped |
| WebSocket.Receiver.Recv | scripts/smoke-agent.py:167-209 | the next text or close after pings and pongs, each ping answered with its payload; after a timeout, what was skipped and answered and what is lost of the frame in front |
| WebSocket.ReceiveAll | scripts/smoke-agent.py:146-209 | for all messages, other frames and control frames between them, all masks, chunkings and timeouts, the caller asking again as the main loop does: if no timeout struck with two bytes but not all of a frame delivered, the payloads in order, each ping answered and exactly the rest left on the stream; on a line that flows, all of them; otherwise right up to the frame the first such timeout struck |
| WebSocket.TimedOutOn | scripts/smoke-agent.py:168-191 | a timeout costs nothing but whole control frames exactly when it does not strike inside a frame |
| WebSocket.TimeoutInsideFrameLosesFraming | scripts/smoke-agent.py:168-209 | a run: the line stalls after the header of an empty text and then flows, and the second call reports a close nobody sent |
| Filters.Matcher.MatchEvent | crates/lenos-acp/src/filter.rs:368-460 | the first rule that does not pass the event on wins or ends the search, with its tag or else its name, and only the rules visited have their counters changed |
| Filters.MatchExact | crates/lenos-acp/src/filter.rs:376-459 | rule i is the answer exactly when its scope, kinds and mention demand fit the event, it has no filter or an enabled one that says yes, and every earlier rule that fits has an enabled filter that says no |
| Filters.CounterMoves | crates/lenos-acp/src/filter.rs:403-447 | an answer resets a counter, a timeout raises it, an error leaves it, and no other counter moves |
| Filters.TimeoutsDisable | crates/lenos-acp/src/filter.rs:403-435 | timeouts in a row on events that reach a rule count up to the five that disable it |
| Filters.From | crates/lenos-acp/src/filter.rs:376-459 | the first rule that does not pass the event on |
| Filters.FailsClosed | crates/lenos-acp/src/filter.rs:355-367 | turning any filter outcomes into errors or timeouts keeps the match or removes it |
| Filters.CountsStayBounded | crates/lenos-acp/src/filter.rs:341-341 | in every run from zero the counters stay at most 5 |
| Filters.DisabledForGood | crates/lenos-acp/src/filter.rs:403-415 | a disabled rule stays disabled |
| Filters.DisabledRuleBlocks | crates/lenos-acp/src/filter.rs:403-415 | every event reaching a disabled rule matches nothing; only earlier rules can still win |
| Filters.MergeRules | crates/lenos-acp/src/config.rs:1291-1325 | the merge loop computes the merge |
| Filters.MergedMeaning | crates/lenos-acp/src/config.rs:1291-1325 | the merge is the duplicate-free union of kinds, unbounded if one rule is, with the weakest mention demand |
| Filters.MergeIgnoresOrder | crates/lenos-acp/src/config.rs:1291-1325 | the merge is independent of rule order, as a set |
| Filters.MatchedIsSubscribed | crates/lenos-acp/src/config.rs:1290-1325 | any event the matcher accepts is admitted by its channel's merged filter |
| Filters.SubscribedIsMatched | crates/lenos-acp/src/config.rs:1290-1325 | with own spellings and no filters, an event is matched exactly when the subscription of some rule admits it |
| Filters.MatchesImpliesApplies | crates/lenos-acp/src/filter.rs:67-72 | a scope that matches by spelling applies by parsing |
| Filters.ScopesAgreeWhen | crates/lenos-acp/src/config.rs:1423-1432 | the two scope tests agree on every channel exactly when the rule is for all channels or lists the own spelling of every channel it names |
| Filters.ScopesDiffer | crates/lenos-acp/src/config.rs:1423-1432 | on every second spelling of a channel: a rule that lists only that one is subscribed to and never matched |
| Filters.SecondSpellingsExist | crates/lenos-acp/src/config.rs:1423-1432 | reading that takes every written id back may still know second spellings |
| Filters.ResolveDynamic | crates/lenos-acp/src/config.rs:1343-1421 | the filter the configuration gives one channel |
| Filters.DeliveredWhen | crates/lenos-acp/src/config.rs:1241-1421 | what each mode delivers: channels, kinds (9, 46010 and 40007 by default) and mentions |
| Filters.TargetChannels | crates/lenos-acp/src/config.rs:1250-1258 | the discovered channels the override allows |
| Filters.ResolveStatic | crates/lenos-acp/src/config.rs:1241-1330 | that filter for exactly the discovered channels that have one |
| Filters.ResolversAgree | crates/lenos-acp/src/config.rs:1241-1421 | in every mode both resolvers give each discovered channel the filter the configuration asks for |
| PoolLifecycle.RetryDelayIsCappedDoubling | crates/lenos-acp/src/pool_lifecycle.rs:123-132 | the saturating arithmetic is min(5 * 2^(k-1), 300) for every u32 k >= 1 |
| PoolLifecycle.Lifecycle.StartWakeIfDue | crates/lenos-acp/src/pool_lifecycle.rs:37-58 | starts a wake, with its token, exactly when work is pending and the state allows it |
| PoolLifecycle.Lifecycle.CompleteWakeAttempt | crates/lenos-acp/src/pool_lifecycle.rs:99-120 | a result is accepted exactly for the current token and otherwise changes nothing |
| PoolLifecycle.Lifecycle.CancelWake | crates/lenos-acp/src/pool_lifecycle.rs:91-93 | a cancelled wake is a failed one |
| PoolLifecycle.Lifecycle.TakeReadyPool | crates/lenos-acp/src/pool_lifecycle.rs:60-68 | hands a ready pool over once and otherwise changes nothing |
| PoolLifecycle.TokensCountUp | crates/lenos-acp/src/pool_lifecycle.rs:37-58 | within an epoch the n-th token is n, until the u32 counter saturates |
| PoolLifecycle.TokensAreFresh | crates/lenos-acp/src/pool_lifecycle.rs:95-98 | below saturation no two wakes of an epoch share a token |
| PoolLifecycle.StaleResultIsRefused | crates/lenos-acp/src/pool_lifecycle.rs:95-110 | a result with any other token changes no run |
| PoolLifecycle.RetryWaitsItsTurn | crates/lenos-acp/src/pool_lifecycle.rs:37-132 | the wake after the failure of attempt k carries token k+1 and waits min(5 * 2^(k-1), 300) seconds |
| PoolLifecycle.DueRetryWakes | crates/lenos-acp/src/pool_lifecycle.rs:37-58 | a retry is never forgotten: work pending at or after its time wakes the pool with the next token, and not before |
| PoolLifecycle.WorkWakes | crates/lenos-acp/src/pool_lifecycle.rs:37-58 | a listening pool wakes at once on work, with token 1 |
| PoolLifecycle.NothingElseWakes | crates/lenos-acp/src/pool_lifecycle.rs:37-58 | without work, while waking and once ready, nothing wakes |
| PoolLifecycle.CurrentResultSettles | crates/lenos-acp/src/pool_lifecycle.rs:99-120 | the result of the current attempt makes the pool ready or sets its retry |
| PoolLifecycle.ReadyIsTaken | crates/lenos-acp/src/pool_lifecycle.rs:60-68 | a ready pool is handed over once and the next epoch starts from nothing |
| AudioFramer.SttTap.Process | desktop/public/worklet.js:34-64 | a call without input changes nothing, an open one appends its input to the stream, a gated one forgets the partial frame, and it throws exactly when the leftover overflows a frame |
| AudioFramer.SttTap.SetTransmitting | desktop/public/worklet.js:27-31 | toggles the gate and keeps the stream |
| AudioFramer.RunTap | desktop/public/worklet.js:19-64 | for all toggles, blocks of at most 960 samples and calls without input: the posted frames are exactly the whole frames of each stream between gated blocks, in order, and the buffer holds the rest of the current one |
| AudioFramer.CutIsUnique | desktop/public/worklet.js:46-61 | a stream has only one cut into frames of 960 and a shorter rest |

## Left out

- Process spawning, stdio pipes, scheduling, tracing and the observer feed: foreign runtime; the model keeps reads, writes and clock readings with success or failure.
- `send_request`, `read_until_response` and `drain_stale_responses`: the plain request loop adds no deadline or steer; request ids are unbounded, so the u64 wrap of `next_id` is not modelled.
- The usage notification inside the read loop is a no-op there; the tracker it feeds is its own module.
- AcpGuarantees.AnsweredAtMostOnce: counts completed writes; bytes of a write that failed or was cut half way may still have reached the agent.
- Parsing of `stopReason` text and of JSON-RPC frames into messages: a frame is already a message, with absent, non-string and other fields told apart.
- `deep_merge` is not associative and nothing is claimed about regrouping layers. JSON text is read and printed by supplied functions; `BuildTwice` assumes only that reading undoes printing.
- SHA-256, curve arithmetic, key files, key-id normalisation, GnuPG status lines and file permissions: supplied functions or left out.
- The JSON library and UTF-8 decoding are parameters: of the reader only that it undoes the compact print of plain values nested less than 128 deep and (for the auth tag) that no text is shorter than the compact print of what it says, and of the decoder only that it is right on ASCII.
- Costs are exact reals, so NaN and rounding are not modelled; counters are unbounded naturals.
- The field arithmetic and modular inverses of `_padd`, and the 32-byte encodings, are behind the abstract curve; private keys are any natural number.
- UTF-8 encoding and decoding of WebSocket text: payloads are byte strings. The pong's own mask is random and not recorded.
- `SmokeState`, the handshake and the smoke script's main loop: they would add easy members only.
- Filter expressions are an oracle returning true, false, timeout or error, the mention test is a field of the event, and runs are sequential (no concurrent updates of one counter).
- The merge loop is written out twice in config.rs (1295-1325 and 1387-1420), word for word the same; the model has it once, so in Config mode the resolvers' agreement rests on the two copies staying equal.
- Pool, queue, relay and database modules, CLI parsing, the React and mobile interfaces, benchmarks and release scripts.
