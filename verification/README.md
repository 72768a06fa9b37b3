# SAO remote exec: a verified model

SAO runs shell lines on a server for an authenticated agent. A client connects over
TLS with a pinned server key, signs a challenge, asks for one command and shows the
command's two output streams. This project models the stack that does so and proves
what it is for:

- **Wire format** (`Frames`, `Codec`, `StreamPayload`, `Wire`). `FrameCodec` is a class
  over a byte stream that delivers its bytes in pieces of any size and may fail at any
  byte or flush. It is proved to be a FIFO queue of frames for every list of frames and
  every cut; truncation is never mistaken for another frame, and each success consumes
  exactly one canonical encoding. `Wire` carries this to the messages of both sides.
- **Server session and exec pump** (`ExecPump`, `ServerSession`, `ServerGuarantees`,
  `ServerReplies`, `Cancellation`, `DeniedRequests`, `PumpTasks`, `ServerTask`). The child and its pipes,
  both reader tasks, the shared channel, the exec future with its own program counter
  (receive, wait, write, flush), the timer at each of its awaits, and the tasks left
  behind by earlier commands are one transition system; its invariants hold over every
  interleaving and every inbound sequence. The control flow of `run_session` and
  `run_one_exec` is written as a class, receive loop, wait, write and flush in that
  order, whose every execution under every schedule is proved to be a run of that
  system; the reader loop with its reused buffer and the pump's writes are methods over
  byte streams.
- **Client and closed system** (`ClientSession`, `ClosedSystem`, `EndToEnd`). The
  client's loop over whatever any server sends, and client and server joined by two
  bounded frame links, either of which may be lost at any moment: conservation of every
  output byte at every moment, freedom from deadlock, a measure that every move lowers,
  and the outcome the user sees.
- **Identity** (`Identity`, `Agreement`, `AuthorizedKeys`, `AgentKey`). Signed bytes,
  the key table, the key files of both sides, and agreement over any number of sessions
  against an adversary who chooses every frame.
- **Pin store** (`KnownHosts`, `KnownHostsLaws`, `HostNames`, `StoreText`, `StoreReload`,
  `PinManagement`). The mutable map, its printer and parser, which hosts are one, what
  a line means character by character, what a fresh load makes of a saved store, and the
  trust-on-first-use and replacement workflow, with every certificate and every answer
  chosen by the environment.
- **Text** (`Text`, `TextLaws`, `Numerals`, `Base64`, `Policy`, `Common`). Rust's string
  operations and number parsers as far as the stores use them; base 64 after section 4
  and hex after section 8 of RFC 4648. Beside the round trips each is told on characters
  and octets alone, with its alphabet written out.

Ed25519 (section 5.1 of RFC 8032) and SHA-256 are functions that the environment
supplies in the `Crypto` record. What a theorem needs of them is a named hypothesis:
`Correct` (a signature made by a key verifies under it), `NoCollision` (no other listed
key has the same SHA-256), `NoForgery` (a signature verifying under an honest agent's
key was made by that agent), `FreshNonce`.

## Where the code is less than its words

The model follows the code; these are the places where the code does not keep a promise
that its messages or comments suggest, each with the exact condition.

- A stored fingerprint is announced as 64 hex characters (`error.rs:17`), but the pair
  parser also takes a plus sign for the first digit of a pair. `PlusAccepted` gives a
  text; `ParseHex32Exact` gives the accepted set and shows that plus signs are the only
  difference.
- `save` followed by `load` does not give back pins whose host is empty, holds
  whitespace or starts with `#`, all of which the command line can store. The pin is
  lost (`CommentHostLost`), or the whole file no longer loads (one empty host is enough),
  or, with whitespace, its line is read as another host's pin and replaces that one
  (`ForeignPin`). `SaveLoadIff` proves that the whole map comes back if and only if no
  host is of these kinds, `FoundIff` when one given pin does, `SavedLoads` when the file
  loads at all, and `SavedExactly` what it then holds, for every host.
- `signing_bytes` puts nothing between nonce and session id. `SigningBytesAmbiguous`
  gives, for every session, other challenges with its signed bytes; `SigningBytesBind`
  proves that equal bytes bind both fields if and only if the nonces are equally long.
  `AcceptedWasSigned` carries that condition to whole runs, and `RelayedChallenge` shows
  for every session a run in which the key's only signature was made for another nonce
  and another session.
- A timeout can cancel a frame in the middle of its bytes, and it can fire at the flush
  behind the exit frame, after which a second exit frame is written. `CancelledWrite`
  proves, over every frame the exec future writes, that the reader gets what was meant
  if and only if nothing of the frame went out, or all of it and it is a stream frame;
  `CutReads` says what it gets instead, `TwoExitFrames` shows the second case.
  In the session that case is the step `LateTimeout`. All theorems hold with it:
  `ResponsePairing` gives each response its place, `PairingIff` proves that this is the
  request's own number if and only if the step never occurs, and `NextRequestMispaired`
  which request gets the wrong answer from a client that counts. Cuts inside a frame are
  not steps of the session: there cancellation is at the awaits between frames
  (`session.rs:240`, `session.rs:256`) and at the exit frame's write and flush
  (`session.rs:259`).
- `authorized_keys` lines of another key type are skipped, but only if they have a
  second word. `OtherTypeRefused` gives a line that spoils every file it ends;
  `OtherTypeSkippedIff` proves that such a line changes nothing if it has a second word
  and refuses the file if it has none; `TableIff` says which texts are accepted.
- The client's third test for a refused key (`main.rs:302`) adds nothing to its second
  (`RefusalReported`).

## Model

| member | source | states |
|---|---|---|
| Frames.WriteHeader | crates/sao-protocol/src/frame.rs:19-25 | the nine bytes filled in place are magic, version, type and the big-endian length |
| Frames.DecodeEncode | crates/sao-protocol/src/codec.rs:54-105 | a frame accepted by a writer with limit W is read back exactly by every reader with limit R at least W, leaving the following bytes untouched |
| Frames.EncodeDecode | crates/sao-protocol/src/codec.rs:54-83 | canonicality: whatever a successful read consumed is the encoding of the frame it returned, at least nine bytes |
| Frames.DecodeErrors | crates/sao-protocol/src/frame.rs:28-39 | for arbitrary bytes, exactly when each of the five outcomes of a read happens, in the order the checks are made, with the version, length and limit it reports, stated on the raw bytes |
| Frames.DecodeCut | crates/sao-protocol/src/codec.rs:56-81 | a frame cut anywhere reads as the end of the stream, never as a format error or another frame |
| Frames.StreamIsFifo | crates/sao-protocol/src/codec.rs:54-105 | reading until failure returns every written frame once, in order, with nothing left over |
| Frames.DecodeAllEncodeAll | crates/sao-protocol/src/codec.rs:54-105 | written frames come out in front of whatever any later bytes decode to |
| Frames.WholeFramesExact | crates/sao-protocol/src/codec.rs:56-81 | the count used for a cut stream is the largest number of frames whose bytes fit before the cut |
| Frames.StreamCut | crates/sao-protocol/src/codec.rs:54-83 | a stream cut after any number of bytes delivers exactly the frames wholly before the cut and then the end of the stream |
| Frames.EncodeAllInjective | crates/sao-protocol/src/codec.rs:88-105 | two different frame lists never have the same bytes |
| Frames.EncodePrefixFree | crates/sao-protocol/src/codec.rs:88-105 | no frame's encoding begins another's |
| Frames.DecodeAllConsumes | crates/sao-protocol/src/codec.rs:54-83 | on arbitrary bytes, the frames read re-encode to a prefix of those bytes |
| Cancellation.CancelledWrite | crates/sao-server/src/session.rs:237-277 | a frame of the exec future, stream or exit, cancelled after n bytes and followed by the timer's exit frame reads as meant if and only if n is 0, or n is the whole frame and it is a stream frame |
| Cancellation.CutReads | crates/sao-server/src/session.rs:264-274 | what the reader gets of a frame cut inside, by the place of the cut: nothing, or one frame that has swallowed as many bytes of the timer's as it missed; and which error follows |
| Cancellation.CutCostsExit | crates/sao-client/src/main.rs:319-340 | after a cut stream frame no exit frame is read, after a cut exit frame at most one, with bytes of another frame in its payload |
| Cancellation.TimeoutPayload | crates/sao-server/src/session.rs:273 | the payload of the timer's exit frame, character by character |
| Cancellation.TwoExitFrames | crates/sao-server/src/session.rs:256-274 | the timer at the flush behind an exit frame leaves two exit frames for one exec |
| Cancellation.LateTimeoutSplits | crates/sao-server/src/session.rs:264-274 | the second exit frame is a complete response of its own that belongs to no request |
| Cancellation.NextRequestMispaired | crates/sao-server/src/session.rs:115-136 | behind any late timeout of any run, in every continuation, a second exit frame stands at the place where, counting the late timeouts so far, the next answer is due |
| Cancellation.PairingIff | crates/sao-server/src/session.rs:115-279 | in every run, responses answer the requests of the same number if and only if the timer never fired behind an exit frame |
| Codec.ByteStream.ReadExact | crates/sao-protocol/src/codec.rs:56-62 | the loop over pieces of any size fills the buffer if and only if enough bytes are coming, with the bytes in order |
| Codec.ByteStream.WriteAll | crates/sao-protocol/src/codec.rs:101-102 | all bytes go out, or exactly the prefix the peer still accepted |
| Codec.FrameCodec.ReadFrame | crates/sao-protocol/src/codec.rs:54-83 | result and remaining bytes are a function of the bytes alone, however they are cut into pieces |
| Codec.FrameCodec.WriteFrame | crates/sao-protocol/src/codec.rs:88-105 | exactly when a write succeeds, and what has gone out on success, on a payload over the limit, on a peer that stops accepting, and on a failing flush |
| Codec.FrameCodec.WriteFrameReadFrame | crates/sao-protocol/src/codec.rs:109-116 | nothing is read unless the request was written in full; then the answer is the frame at the front, and a success wrote one encoding and consumed one |
| Codec.FrameCodec.ReadAll | crates/sao-protocol/src/codec.rs:54-83 | repeated reads, over any cutting into pieces, return the frames the bytes decode to and leave what follows them |
| Codec.Receive | crates/sao-protocol/src/codec.rs:54-105 | whatever list of frames a writer with limit w had accepted, a reader with limit at least w gets exactly that list and then the end of the stream |
| Codec.LinkWrite | crates/sao-protocol/src/codec.rs:88-105 | refinement: a write appends to the frame queue the bytes stand for |
| Codec.LinkRead | crates/sao-protocol/src/codec.rs:54-83 | refinement: a read takes the head of that queue, and on an empty queue reports the end |
| StreamPayload.ParseSerialize | crates/sao-client/src/main.rs:323-328 | the client recovers the bytes of every stream payload |
| StreamPayload.PayloadText | crates/sao-server/src/session.rs:241-244 | the payload of a stream frame, character by character: a JSON object of one field holding the base 64 of the chunk |
| StreamPayload.ChunkDelivered | crates/sao-server/src/session.rs:241-251 | a chunk of 1 to 16384 bytes makes a payload of 11 + 4*ceil(n/3), at most 21859 bytes, accepted by the default limit, and arrives as the same chunk |
| Base64.DecodeEncode | crates/sao-server/src/session.rs:243 | decoding undoes encoding for every byte string |
| Base64.EncodeDecode | crates/sao-core/src/authorized_keys.rs:45-47 | only the canonical text of a byte string decodes to it; with `EncodeExact` this says what every text decodes to |
| Base64.EncodeExact | crates/sao-server/src/session.rs:243 | the encoding told from the octets alone: every group of three octets, as one 24-bit number, gives four symbols of the alphabet of RFC 4648 at its own place, and one or two octets left over the same symbols with zero bits, padded |
| Base64.EncodeLength | crates/sao-server/src/session.rs:243 | four characters for every three octets begun |
| ExecPump.StepInv | crates/sao-server/src/session.rs:193-235 | each step of child, reader tasks and signal keeps both streams' accounts (framed, queued, piped and unwritten bytes make up the child's output in order) and keeps an empty channel without senders empty |
| ExecPump.ReadMoves | crates/sao-server/src/session.rs:211-218 | a pass of the reader moves at most 16384 bytes from the pipe to the end of the channel, or loses them and ends when the receiver is gone |
| ExecPump.Progress | crates/sao-server/src/session.rs:205-260 | with pipes of any capacity from one byte, some actor can move until polling gets the exec future past its await, whatever order the child writes in |
| ExecPump.RankDecreases | crates/sao-server/src/session.rs:205-235 | every step below the pump lowers the measure |
| PumpTasks.ReaderTask | crates/sao-server/src/session.rs:207-220 | the loop over one reused buffer sends chunks of 1 to 16384 bytes that spell a prefix of the pipe: all of it while the receiver lives, and else as many chunks as the receiver took, with at most one more buffer read |
| PumpTasks.PumpChunks | crates/sao-server/src/session.rs:239-255 | each chunk goes out as its own frame, in order; on a failing peer or flush exactly the bytes it still took, and exactly when the pump fails |
| PumpTasks.ChunkOnWire | crates/sao-server/src/session.rs:239-251 | the bytes a chunk's frame begins with: magic, version, and type 0x11 for standard output or 0x12 for standard error |
| PumpTasks.WireDelivers | crates/sao-client/src/main.rs:319-340 | bytes to bytes: the pump's output cut anywhere reads as a prefix of the same chunks, uncut as all of them |
| ServerSession.StepInv | crates/sao-server/src/session.rs:39-279 | the session invariant (replies match jobs, jobs match requests, the key was proved, policy was asked) is kept by every step of every actor, the timer behind an exit frame included |
| ServerSession.RunsInv | crates/sao-server/src/session.rs:39-279 | so it holds after every run |
| ServerGuarantees.OutputGrammar | crates/sao-server/src/session.rs:56-137 | at every moment of every run the frames written begin a word of Challenge (Error or refusal or acceptance followed by complete responses and at most one Error) |
| ServerGuarantees.NothingAfterFailure | crates/sao-server/src/session.rs:62-94 | after a failed authentication or an Error frame nothing more is ever written |
| ServerReplies.OtherRequest | crates/sao-server/src/session.rs:115-136 | after authentication, in every reachable state: a frame of any type but 0x10 is answered by an UNKNOWN_MSG_TYPE error frame and ends the session; a payload that cannot be parsed, the end of the stream and a failing read end it with nothing written |
| ServerReplies.CommandRequest | crates/sao-server/src/session.rs:169-200 | a command is denied for the first pattern that occurs in it, and the session goes on; else it is dropped in silence if and only if there is no shell or it cannot be spawned; else it runs as the configured argv with the line appended, and nothing is written yet |
| ServerReplies.ErrorFrames | crates/sao-server/src/session.rs:61-136 | over every run, an error frame has been written if and only if the frames read call for it (the first not of type 0x02; the last, behind an accepted one, not of type 0x10) and no answer was lost to a failing connection |
| ServerReplies.FirstAnswer | crates/sao-server/src/session.rs:61-113 | over every run, what has been written up to the answer to the first frame, told on that frame, the key table and the challenge: error frame, silence, each of the three refusals, or acceptance |
| ServerGuarantees.ResponsePairing | crates/sao-server/src/session.rs:115-279 | in every run, the response to request k stands at position k plus the late timeouts behind earlier requests, carries that process's own output and nothing else, whole if it ended by itself; behind it, only if the timer fired there, one more exit frame; and there is no other response |
| ServerGuarantees.DetachedTasksSilent | crates/sao-server/src/session.rs:264-277 | reader tasks that outlive a timeout change no reply and never touch the current process |
| ServerGuarantees.ExecutionGuard | crates/sao-server/src/session.rs:61-200 | every process was requested after an accepted response for a listed key, runs shell_argv with the requested line appended, and that line contains no deny pattern |
| DeniedRequests.DeniedTransparent | crates/sao-server/src/session.rs:175-184 | at any point of any run, a request with a deny pattern is answered by one denial naming a pattern of the list, and the continuations are those the session had without it, in both directions, with that denial inserted and nothing else |
| ServerGuarantees.ExitFrameCause | crates/sao-server/src/session.rs:252-277 | in every reachable state, an exit frame is written by the timer with 124 or at the end of the exec with the child's code, and in the second case no sender is left, the channel is empty and the child is reaped, as a consequence of what the exec future saw at its earlier awaits |
| ServerGuarantees.CompletedDrained | crates/sao-server/src/session.rs:237-260 | at every later moment of every run, a process that ended by itself has no reader left, nothing queued and was reaped |
| ServerGuarantees.CompletedWhole | crates/sao-server/src/session.rs:237-260 | and its response, in its place, carries the whole of every stream whose pipe did not fail |
| ServerGuarantees.ResponseCount | crates/sao-server/src/session.rs:115-279 | in every run the complete responses number the answered requests plus the late timeouts |
| ServerGuarantees.LateRuns | crates/sao-server/src/session.rs:264-274 | every late timeout of a run is behind one request's exit frame, and no request has two |
| ServerGuarantees.TimeoutClosesGroup | crates/sao-server/src/session.rs:264-277 | in every run the timer ends the open response, a prefix of each stream, with exactly one exit frame of code 124 |
| ServerTask.ServerTask.RunSession | crates/sao-server/src/session.rs:39-138 | every execution of the session's control flow, whatever is read, wherever a write fails and however the runtime schedules tasks, polls and timer, is a run of the transition system, ends in the state the specification gives, and its output obeys the grammar; an error frame is in it only if the frames read call for one, and then always while the peer takes frames; the first frame gets the answer of `ServerReplies.FirstAnswer` |
| ServerTask.ServerTask.AwaitResponse | crates/sao-server/src/session.rs:61-113 | one frame is read and the decision, reply and new state are those of the specification, also when the reply cannot be written |
| ServerTask.ServerTask.RunOneExec | crates/sao-server/src/session.rs:169-279 | one request is denied, refused or run to its end as the specification says, consuming a child only if one is spawned |
| ServerTask.ServerTask.PumpUntilEnd | crates/sao-server/src/session.rs:237-277 | the receive loop, then wait, write and flush, with the timer at each await, come under any schedule to the state that the transition system's steps give |
| ClientSession.RunSession | crates/sao-client/src/main.rs:263-355 | the client's loop ends as its state machine does, shows exactly its output and writes exactly its requests, for every sequence of frames with payloads that parse or do not, failing reads and failing writes |
| ClientSession.RunMeaning | crates/sao-client/src/main.rs:275-354 | after a challenge and an acceptance from any server the client shows exactly the chunks before the first thing that carries none and ends as that says: failed read, unusable payload, the code of a 0x13 frame or -1, 126 on 0x20, 1 on 0xFF and every other type; it has sent the signed answer and one request, given byte type by byte type |
| ClientSession.HandshakeEnds | crates/sao-client/src/main.rs:275-317 | for every sequence of frames, how the client ends and what it has sent when one of the two opening frames is not as it should be: lost connection, wrong type, unusable payload or refusal |
| ClientSession.CommandAfterAcceptance | crates/sao-client/src/main.rs:275-317 | against any server and over a link that may break at any write, the client ends, answers only a challenge it can read, asks for its command exactly when accepted, and otherwise shows nothing and fails |
| ClientSession.RefusalReported | crates/sao-client/src/main.rs:296-312 | a refused client reports its key as not listed if and only if the reason is UNKNOWN_KEY or the message holds authorized_keys, and otherwise that it was rejected; it has sent its answer and nothing else |
| ClientSession.ServerUnderstood | crates/sao-client/src/main.rs:275-354 | on every frame of this server the client's parsers and tests come to what the server meant |
| ClientSession.ReplyTypes | crates/sao-server/src/session.rs:53-136 | the type byte of every frame of the server, and the codes of its refusals |
| ClientSession.LaterUnread | crates/sao-client/src/main.rs:319-354 | frames behind the one that ends the client change nothing |
| Wire.ServerToClient | crates/sao-client/src/main.rs:292-320 | the bytes of the server's frames, cut anywhere, are to the client the messages in front of the cut and then a failing read |
| Wire.ClientOnBytes | crates/sao-client/src/main.rs:263-355 | on those bytes the client does what the closed system's client does on the replies in front of the cut |
| Wire.ClientToServer | crates/sao-server/src/session.rs:115-123 | the bytes of the client's frames, cut anywhere, are to the server the requests in front of the cut and then end of file or an error |
| ClosedSystem.MoveInv | crates/sao-client/src/main.rs:263-355 | every move of either end, losing the connection and the timer behind the exit frame included, keeps the joint invariant of server, client and the two links |
| ClosedSystem.OneResponse | crates/sao-server/src/session.rs:115-136 | with one request, the frames after authentication are that request's response or its beginning, and behind it at most the second exit frame |
| ClosedSystem.NextReply | crates/sao-client/src/main.rs:275-354 | the next frame on the link is always one the client's state expects |
| ClosedSystem.LeadsInv | crates/sao-client/src/main.rs:263-355 | the joint invariant holds after every interleaving |
| EndToEnd.Delivery | crates/sao-server/src/session.rs:205-262 | conservation at every reachable state: bytes shown, in frames, in the channel, in the pipe and unwritten make up the child's stream, in order and once; and always a prefix, also after a lost connection |
| EndToEnd.Progress | crates/sao-client/src/main.rs:263-355 | until both ends have finished, something other than timer, fault or a new loss can move |
| EndToEnd.MoveRank | crates/sao-server/src/session.rs:205-279 | every move of client, server, child, tasks, timer at any await and failing connection lowers the measure |
| EndToEnd.RunsAreFinite | crates/sao-server/src/session.rs:205-279 | no run is longer than the measure of its first state |
| EndToEnd.MaximalRunsEnd | crates/sao-client/src/main.rs:263-355 | a run that only new misfortune could extend has finished at both ends, within the bound, whatever went wrong before |
| EndToEnd.FinalOutcome | crates/sao-client/src/main.rs:319-350 | with no failing pipe or connection and no timer before the exit frame, the user sees the whole of both streams and the child's code (-1 if it had none), or the intended refusal, told from the setup and the server's decision on the challenge it sent; a timer behind the exit frame changes nothing |
| EndToEnd.FaultyOutcome | crates/sao-server/src/session.rs:237-277 | with the timer at any await, failing pipes and failing connection: code 124, or the child's code and every unbroken stream whole, or a lost connection that was lost; always a prefix |
| EndToEnd.ListedClientServed | crates/sao-server/src/session.rs:76-94 | in every run to the end without fault, whatever the challenge, a client whose key is listed sees its command's outcome and no refusal |
| EndToEnd.RefusedClientTold | crates/sao-server/src/session.rs:72-94 | in every run to the end without fault, the client hears that its key is not listed if and only if no entry of the table has its SHA-256, and that it is rejected if and only if the first such entry does not verify its signature |
| EndToEnd.EnrolledClientServed | crates/sao-core/src/agent_key.rs:35-41 | from the key files to the output: append the public file to a table that parses, run the server on it, and the client sees its command's outcome |
| Identity.SigningBytesBind | crates/sao-core/src/auth_message.rs:6-12 | equal signed bytes bind nonce and session if and only if the nonces are equally long |
| Identity.SigningBytesAmbiguous | crates/sao-core/src/auth_message.rs:6-12 | for every 32-byte nonce and non-empty session id, each split of the id gives another pair with the same signed bytes |
| Identity.FindFromFirst | crates/sao-core/src/authorized_keys.rs:76-79 | lookup returns the first entry with the fingerprint, and fails only if there is none |
| Identity.AuthenticateIff | crates/sao-server/src/session.rs:71-94 | a response is accepted for key k if and only if its type is the one type, k is the first listed entry of its fingerprint and its signature is the base64 of 64 bytes verifying over this session's bytes |
| Identity.RefusalIff | crates/sao-server/src/session.rs:71-94 | each refusal exactly when: another key type; the right type and no entry with the fingerprint; the right type, such an entry, and no 64 bytes behind the signature text that verify under the first one |
| Identity.SigningBytesLayout | crates/sao-core/src/auth_message.rs:6-12 | the signed bytes place by place: the ASCII name, a zero byte, the nonce, the session id |
| Identity.FingerprintExact | crates/sao-core/src/authorized_keys.rs:23-26 | a fingerprint is the SHA-256 of the key in lower-case hexadecimal digits |
| Identity.FindListed | crates/sao-core/src/authorized_keys.rs:76-79 | the fingerprint of a listed key finds that key unless another listed key collides with it |
| Identity.HonestAccepted | crates/sao-server/src/session.rs:71-94 | a listed client that signs what it was sent is accepted under its own key |
| Agreement.HappensInv | crates/sao-server/src/session.rs:49-94 | over any number of concurrent sessions, nonces stay distinct and an honest agent's key is only ever accepted for bytes it signed |
| Agreement.AcceptedWasSigned | crates/sao-server/src/session.rs:76-94 | an accepted session's bytes were signed by the key's holder, and both agree on nonce and session if and only if the signer's nonce had 32 bytes |
| Agreement.RelayedChallenge | crates/sao-server/src/session.rs:49-94 | for every session with a listed key there is a run in which it is accepted although that key's only signature was made for another nonce and session |
| Agreement.OneSessionPerMessage | crates/sao-server/src/session.rs:49-51 | one signed message authenticates at most one session |
| Policy.CheckShellIff | crates/sao-core/src/policy.rs:6-15 | a line passes if and only if no pattern occurs anywhere in it; otherwise the first pattern of the list that occurs is reported |
| Text.ContainsIff | crates/sao-core/src/policy.rs:8 | the substring search succeeds if and only if there is an occurrence |
| TextLaws.TrimIff | crates/sao-core/src/known_hosts.rs:22 | trimming gives exactly what lies between the outermost characters that are not of the Unicode White_Space property |
| TextLaws.SpaceIff | crates/sao-core/src/known_hosts.rs:22 | the whitespace characters, by code point |
| TextLaws.LowerExact | crates/sao-core/src/known_hosts.rs:85 | lower-casing moves the 26 ASCII letters by 32 places and nothing else |
| TextLaws.WordsExact | crates/sao-core/src/known_hosts.rs:26 | words end at any whitespace character and are separated by any run of them |
| TextLaws.LinesExact | crates/sao-core/src/known_hosts.rs:21 | a line ends at a line feed and takes one carriage return in front of it along; the last line needs none |
| KnownHosts.KnownHosts.Load | crates/sao-core/src/known_hosts.rs:15-41 | the loop over lines ends with the map or the first error that folding the lines gives |
| KnownHosts.KnownHosts.InsertHex | crates/sao-core/src/known_hosts.rs:52-56 | exactly one key changes, and nothing on a refused fingerprint |
| KnownHosts.KnownHosts.Save | crates/sao-core/src/known_hosts.rs:58-72 | the text is a function of the map alone, whatever order the hash map yields its keys in |
| KnownHosts.SortKeys | crates/sao-core/src/known_hosts.rs:63-64 | the result is sorted and has exactly the given keys |
| KnownHosts.SortedUnique | crates/sao-core/src/known_hosts.rs:64 | a set of keys has only one sorted list |
| StoreText.KeyLeIff | crates/sao-core/src/known_hosts.rs:64 | the order of keys told on characters: by host, a beginning before what it begins and otherwise by the first difference, and then by port |
| StoreText.LineMeaning | crates/sao-core/src/known_hosts.rs:21-39 | one line exactly: passed over if blank or a comment; an entry for this key and pin; refused for too few words or a bad port; refused for its fingerprint |
| StoreText.RefusalMeaning | crates/sao-core/src/known_hosts.rs:15-41 | a file is refused for its first refused line, as that line says, and no file is an empty store |
| StoreText.SavedLayout | crates/sao-core/src/known_hosts.rs:62-71 | the saved text: the fixed first line and one line for each key in turn |
| Numerals.FillHex32 | crates/sao-core/src/known_hosts.rs:88-100 | the array filled pair by pair is the parse of the text, 32 bytes when there is one |
| Numerals.Hex32RoundTrip | crates/sao-core/src/known_hosts.rs:66-100 | a printed fingerprint reads back as the same 32 bytes |
| Numerals.PlusAccepted | crates/sao-core/src/known_hosts.rs:95 | a text that is not 64 hex digits and yet parses |
| Numerals.ParseHex32Exact | crates/sao-core/src/known_hosts.rs:88-100 | the exact set of texts accepted, and that it is the announced set if and only if there is no plus sign |
| Numerals.ParseHex32Value | crates/sao-core/src/known_hosts.rs:88-100 | a text is read as these 32 bytes if and only if its 64 characters, trimmed and in lower case, are the digits of each byte in turn, where a plus sign may stand for a leading zero |
| Numerals.HexEncodeExact | crates/sao-core/src/known_hosts.rs:66 | each octet as two lower-case digits, the high one first (section 8 of RFC 4648) |
| Numerals.ParseU16Exact | crates/sao-core/src/known_hosts.rs:34-36 | a text is read as this port if and only if it is its printed number behind any zeros and at most one plus sign, and the number fits 16 bits |
| Numerals.PrintNatExact | crates/sao-core/src/known_hosts.rs:67 | a printed number is the printed rest followed by its last digit |
| Numerals.PortRoundTrip | crates/sao-core/src/known_hosts.rs:34-36 | every printed port parses to itself |
| KnownHostsLaws.NormalizeIdempotent | crates/sao-core/src/known_hosts.rs:75-86 | normalising twice is normalising once |
| KnownHostsLaws.LookupSpelling | crates/sao-core/src/known_hosts.rs:43-50 | a host's pin is found under its normalised form, in lower case and in brackets |
| HostNames.KeyIff | crates/sao-core/src/known_hosts.rs:43-86 | told on characters: two hosts have one pin if and only if the ports are equal and what lies between their outer brackets differs at most in the case of ASCII letters |
| HostNames.SameHostSameKey | crates/sao-core/src/known_hosts.rs:75-86 | hosts of equal length that differ at most in the case of ASCII letters have one pin |
| HostNames.NormalForm | crates/sao-core/src/known_hosts.rs:75-86 | a normalised host holds no capital ASCII letter, has no bracket at either end, and is the core of the given host up to case |
| KnownHostsLaws.SaveLoadIff | crates/sao-core/src/known_hosts.rs:15-72 | loading what was saved gives the same map if and only if every host is non-empty, free of whitespace and does not start with a hash sign |
| KnownHostsLaws.CommentHostLost | crates/sao-core/src/known_hosts.rs:23-25 | a concrete pin that a save and a load lose |
| KnownHostsLaws.LoadedKeys | crates/sao-core/src/known_hosts.rs:33-38 | loading only makes normalised hosts without whitespace |
| KnownHostsLaws.LastLineWins | crates/sao-core/src/known_hosts.rs:21-39 | a loaded map holds for each key what the last line about it says, and no key that no line mentions |
| StoreReload.SavedLoads | crates/sao-core/src/known_hosts.rs:15-72 | any saved store loads if and only if the line of every single pin does |
| StoreReload.SavedFinds | crates/sao-core/src/known_hosts.rs:15-72 | without whitespace in its hosts it loads if and only if no host is empty, and then exactly the pins come back whose host does not start with a hash sign |
| StoreReload.FoundIff | crates/sao-core/src/known_hosts.rs:15-72 | after one pin is set in a loaded store and saved, a load gives that pin if and only if no other host is empty and this one can be written |
| StoreReload.StillLoadsIff | crates/sao-core/src/known_hosts.rs:15-72 | whether the file still loads then, told from the hosts it held and the one new line |
| StoreReload.SavedExactly | crates/sao-core/src/known_hosts.rs:15-72 | exactly what a load gives after one pin is set and saved, for every host: the other pins in front of its line, what its line says, the other pins behind |
| StoreReload.ForeignPin | crates/sao-core/src/known_hosts.rs:26-38 | a host with whitespace whose line reads back as another host's pin and replaces the stored one |
| PinManagement.PinManager.ConnectPinned | crates/sao-client/src/connect.rs:11-38 | succeeds if and only if the server shows the pinned key, and otherwise with the words by which a mismatch is known |
| PinManagement.PinManager.ProbeAndDecide | crates/sao-client/src/main.rs:188-217 | the shown key is returned if and only if there is one and the switch or a typed yes agrees; otherwise the error says whether none was shown, nobody could be asked, or the answer was not yes |
| PinManagement.IsYesIff | crates/sao-client/src/main.rs:206 | the answers taken for yes: y or yes in either case between any spaces |
| PinManagement.PinManager.TrustAdd | crates/sao-client/src/main.rs:75-84 | exactly what a load gives afterwards, for every host; it is the old pins with this key set if and only if all hosts of that map can be written, and holds this pin if and only if no host is empty and this one can |
| PinManagement.PinManager.ResolveTlsPin | crates/sao-client/src/main.rs:178-226 | when it succeeds, with which pin, what was written, what was consumed; a refusal leaves the file alone and says whether the store, the connection, the terminal or the answer was the reason |
| PinManagement.PinManager.ReplacePin | crates/sao-client/src/main.rs:134-171 | succeeds if and only if the store loads, somebody agrees and the same certificate is shown twice; only this pin is replaced; and which of these was missing is what the error says |
| PinManagement.PinManager.ConnectOrReplace | crates/sao-client/src/main.rs:131-174 | with a pin at hand, exactly when a connection results, and that a connection under another key means exactly that pin was replaced with consent |
| PinManagement.PinManager.ConnectWithPinManagement | crates/sao-client/src/main.rs:121-175 | a connection is returned if and only if the servers met and the answers given allow it, on first use and on a change; a load then gives this host the connection's key exactly unless the store cannot hold it, and every other pin what one or two such writes leave it; nothing is written without consent |
| PinManagement.PinnedStands | crates/sao-client/src/main.rs:164-168 | one write of a store that loads: when the pin is found again, and that the others are kept |
| PinManagement.TwiceStands | crates/sao-client/src/main.rs:164-168 | a replacement on top of a first use is judged by the store as it was at the start |
| AuthorizedKeys.LoadAuthorizedKeys | crates/sao-core/src/authorized_keys.rs:28-74 | the pushing loop returns the entries of the lines in order or the first error; a table is never empty, its fingerprints and points are right |
| AuthorizedKeys.LoadLinesIff | crates/sao-core/src/authorized_keys.rs:31-67 | a table parses if and only if no line is malformed, and then holds exactly the entries of its lines |
| AuthorizedKeys.TableIff | crates/sao-core/src/authorized_keys.rs:28-74 | told on the text: a file is accepted if and only if no line has one word only or is of the key type with a second word that encodes no key, and some line is of the key type |
| AuthorizedKeys.RefusedIff | crates/sao-core/src/authorized_keys.rs:36-59 | the same for one line |
| AuthorizedKeys.EntryTold | crates/sao-core/src/authorized_keys.rs:36-67 | an entry holds the key its second word encodes, that key's fingerprint, and the other words as a comment with single spaces between them |
| AuthorizedKeys.LineKinds | crates/sao-core/src/authorized_keys.rs:31-62 | a line is passed over, or refused for a missing blob, bad base 64, a wrong length or a bad point, each exactly when |
| AuthorizedKeys.NoKeysIff | crates/sao-core/src/authorized_keys.rs:69-73 | a file is refused for having no key if and only if no line spoils it and none is of the key type |
| AuthorizedKeys.OtherTypeRefused | crates/sao-core/src/authorized_keys.rs:36-44 | a line of another key type that spoils every file it ends |
| AuthorizedKeys.OtherTypeSkippedIff | crates/sao-core/src/authorized_keys.rs:36-44 | a line of another key type changes nothing if it has a second word, and refuses the file if it has none |
| AuthorizedKeys.LoadLinesAppend | crates/sao-core/src/authorized_keys.rs:31-67 | the table of two blocks of lines is the first block's followed by the second's |
| AgentKey.AppendPublicKey | crates/sao-core/src/agent_key.rs:35-41 | appending the public file to a table that parses adds exactly that entry, at the end |
| AgentKey.EnrolledClientAccepted | crates/sao-core/src/agent_key.rs:35-41 | a client enrolled that way is accepted on any challenge under its own key |
| AgentKey.PrivateKeyRoundTrip | crates/sao-core/src/agent_key.rs:48-76 | the stored private key is the one that reloads |
| AgentKey.LoadPrivateIff | crates/sao-core/src/agent_key.rs:48-76 | which key a private key file gives, or which error: the first line that is neither header, blank nor comment decides, by whether it is the base 64 of 32 bytes, of another length, or of nothing |
| AgentKey.KeyFileTexts | crates/sao-core/src/agent_key.rs:36-81 | the texts of the public and the private key file |
| AgentKey.KeyFiles.WriteAgentPublicKeyFile | crates/sao-core/src/agent_key.rs:27-43 | the public file holds the hint and this key's line |
| AgentKey.KeyFiles.LoadOrCreateSigningKey | crates/sao-core/src/agent_key.rs:46-87 | an existing file decides and stays, a missing one is made from the generated key, and the public file is refreshed exactly on success |
| AgentKey.CreateThenReload | crates/sao-core/src/agent_key.rs:110-124 | creating a key and loading it again give the same key and the same public file, which holds the key type and the encoded key |

## Left out

- TLS, sockets, X.509 and PEM (`connect.rs` beyond the pin comparison, `tls_util.rs`, `spki.rs`): a connection is the SHA-256 of the key it shows and two byte streams.
- General JSON and YAML: a payload is what each parser of its reader makes of it, or that it fails; `Wire.Json` stands for the two JSON libraries, with the hypothesis that each side reads what the other wrote. Only the stream payload and the timer's exit payload have concrete bytes.
- Server configuration loading, `cmd_init`, audit log, prompt wording, exit status truncation to 32 bits, `parse_addr`, `public_key_path`, `trust probe` and policy-group lookup: plumbing without a hard property. Writing to the terminal does not fail.
- Error texts and line numbers in errors: errors are constructors. The text of a signature error is a parameter that is assumed not to hold "authorized_keys".
- Real clocks: the timer may fire at any await of the exec future. A `write_frame` cancelled inside a frame's bytes is not a step of the session; `Cancellation.CancelledWrite` shows what it does to the reader.
- ServerTask.ServerTask.RunSession: reading a frame is one step with handling it and writing the reply, and a write that fails leaves no part of its frame in the log; what such a part is to the client is the cut of `Wire.ServerToClient`. A schedule that is used up stands for a runtime that has been shut down.
- ClosedSystem.MoveInv: the links hold a bounded number of whole frames; that bytes carry such links is `Codec.LinkWrite`, `Codec.LinkRead` and `Wire`.
- ExecPump.StepInv: the child and its descendants are one script of bytes per command, so a process exit is independent of the pipes closing; the kill after a timeout is a step that may or may not come.
- Codec.FrameCodec.ReadFrame: `PayloadLengthOverflow` needs a 16-bit `usize` and is not modelled.
- KnownHosts.KnownHosts.Save: the library's sort is modelled as insertion sort, file errors and directory creation are dropped.
- KnownHosts.KnownHosts.Load: read errors other than a missing file are dropped.
- Numerals.ParseHex32Exact: lengths are counted in characters; a text with non-ASCII characters is refused, where the source refuses it or panics on a slice inside a character.
- Text.LowerIdempotent: lower-casing is that of ASCII letters; Unicode case mapping is not modelled.
- AgentKey.KeyFiles.LoadOrCreateSigningKey: key generation is a parameter, file errors are dropped.
