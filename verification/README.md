# vncdotool: capture, replay and decode, verified

A Dafny model of the RFB machinery of vncdotool: the handshake scrubber behind
`vnclog --capture-raw`, the `vncdo-replay` server, the client's parser and decoders, the
rectangle buffer, pixel-format arithmetic and the one-shot session claim. Each is a
byte-driven state machine. The theorems say that the machines agree with each other, with
simple specifications, and with themselves however TCP cuts the bytes.

Objects whose methods update fields are classes (`HandshakeScrubber`, `CaptureWriter`,
`ReplayProtocol`, `HandshakeClient`, `SessionClient`, `RectBuffer`, `VNCLoggingServerFactory`)
that carry the source's loops; each method is proved against a function, and the lemmas are
about those functions. `dafny verify dfyconfig.toml` checks everything.

The main results, by file:

- `Segmentation.dfy`: a capture is a function of the turns of the conversation, not of the
  reads it arrived in; with `preserve_auth` it is the bytes themselves.
- `Rewrite.dfy`: every followed session is recorded as the `none` handshake of its version
  around the same session bytes; what was offered and how the client authenticated leave no
  trace.
- `Runs.dfy`: the sessions `Rewrite.dfy` enumerates are all there are: every turn-taking run
  that follows its handshake to the end has the turns of one of them.
- `Endings.dfy`: every turn-taking run that ends without a session is one of four kinds of
  attempt, and is recorded and known exactly as that; over every run the capture is given up
  exactly where credentials cannot be told from the rest, and never with `preserve_auth`.
- `Idempotence.dfy`: stripping a stripped recording changes nothing, for every turn-taking
  run, proved with a second scrubber that shadows the first.
- `Secrecy.dfy`: a capture cut short inside the auth exchange holds nothing of it.
- `ClientMessages.dfy`: the replay server's framing undoes the client's writers, and any
  bytes at all have exactly one framing.
- `Replay.dfy`: what the replay server has written is a function of all the client has sent;
  pacing terminates on every archive, and for every client stream the framebuffer is held
  back exactly until an update request or an unmeasurable message; less than the whole
  recording is written for good exactly when the client settles on another version.
- `ClientHandshake.dfy`: what the client does with any bytes during the handshake, giving up
  included; exactly when its receive loop ends.
- `Dialogue.dfy`: to any server it can satisfy the client says exactly its lines, word for
  word.
- `Lockstep.dfy`: scrubber and client agree on every boundary of a handshake, both ways,
  exactly when the client's answers have the lengths the scrubber assumes; with the
  cryptography as it is, only a challenge without a usable password and ARD credentials that
  do not fit can break that.
- `Composed.dfy`: client and replay server over FIFO channels with arbitrary cuts and
  arbitrary scheduling always reach connection-made, with exactly the recorded handshake
  received, and every capture of a followed session is playable this way;
  `CaptureThenReplay` and `ReplayRun` run the two ends one after the other, down to the
  callbacks the replayed client makes.
- `Parsing.dfy`, `Accounting.dfy`, `ServerMessages.dfy`: the session parser terminates, is
  blind to chunking, is final after an abort, keeps its update books balanced, complains
  exactly of what is wrong, and reads back every message an encoder prints.
- `Hextile.dfy`, `ZrleRoundTrip.dfy`, `Tiling.dfy`: both tile decoders undo an encoder; the
  tiles partition the rectangle; a ZRLE tile that cannot be read ends its rectangle after
  exactly the tiles before it.
- `RectBuffer.dfy`: the lazily cleared, reference-holding buffer is a plain canvas.
- `PixelFormats.dfy`: raw modes read back the packed channels; CPIXELs lose no colour bit.
- `OneShot.dfy`: the session claim is exclusive over every interleaving of connections, and
  who is refused is known exactly.

Seven things about the code that the proofs turned up:

- A handshake handler that gives up asks for the connection to be closed but stays armed, so
  the receive loop calls it again with the next bytes (`GivingUpStopsNothing`): a refusal with
  a text is reported once exactly if fewer bytes than that follow (`RefusalIsReported`), an
  unknown offer is followed by another (`UnknownOfferIsReread`), and before 3.8 a failed login
  followed by four zero bytes makes the client go on as if it had succeeded
  (`EarlyLoginFailure`).
- A refusal or a failed login with an empty text is such a handler armed for no bytes: the
  receive loop never ends (`EmptyRefusalHangs`). That is the only way it does not end
  (`LoopEndsExactly`, `HangsExactly`).
- The scrubber takes ARD credentials to be 128 bytes. The client pads username and password
  to 64 characters each, does not cut longer ones, and encodes only afterwards; so the
  plaintext is 128 bytes exactly when both are ASCII and have at most 64 characters
  (`ArdLengthHolds`), and exactly then the two stay together (`ArdIsFollowedExactly`). A
  username of 80 ASCII characters, or of 16 accented letters, makes 144 bytes: whole AES
  blocks, so they are written, and 16 bytes are left over in front of what the client says
  next (`LongUsernameIsNotFollowed`). A length that is no multiple of 16, such as the 129
  bytes of a username of 65 letters, cannot be encrypted: the cipher raises and nothing is
  written.
- The rows of a ZRLE packed tile are padded to whole bytes by section 7.7.5 of RFC 6143. The
  decoder reads all indices as one stream and takes the padding for pixels, so a packed tile
  is read back exactly when its rows fill whole bytes or there is only one
  (`PackedReadsBackExactly`); `NarrowTileFails` is a tile of two pixels that is not.
- The subrectangle handler of CoRRE always raises, because its format string is not one: a
  CoRRE rectangle is read exactly when it has no subrectangles (`CorreSubrectsCrash`).
- In Hextile, a tile with coloured subrectangles leaves the last of their colours behind as
  the foreground of the next tile. Section 7.7.4 of RFC 6143 does not say what the foreground
  of such a tile is; `Hextile.Foreground` follows the code.
- A zero-byte want (an ARD key length of zero) is never left parked, which is what the replay
  loop's termination rests on: `_feed` ignores an empty chunk.

## Model

| member | source | states |
|---|---|---|
| Grammar.Next | vncdotool/capture.py:156-257 | every chunk lowers a rank, zero-byte wants included; counts the grammar waits for stay non-zero where it has checked them; a zero-byte want is only ever reached from a want in the same direction |
| Grammar.GreetingTextMeaning | vncdotool/capture.py:157-158 | the protocol version is the greeting without its trailing newlines, anything not ASCII replaced |
| Grammar.PythonIntReadsBack | vncdotool/capture.py:165-166 | the reading of version numbers reads every number back, signed or not |
| Grammar.BlanksAreTrimmed | vncdotool/capture.py:165-166 | blanks around a number do not matter |
| Grammar.UnderscoreIsSkipped | vncdotool/capture.py:165-166 | nor does a single underscore between digits |
| Grammar.OtherBytesAreErrors | vncdotool/capture.py:167-172 | any other byte makes the reply unreadable |
| Scrubber.Drain | vncdotool/capture.py:127-140 | the feed loop stops waiting on this tap only with too few bytes, and hands over to the other tap only with a want of at least one byte |
| Scrubber.Feed | vncdotool/capture.py:110-147 | outside a call the tap not waited on is empty and the awaited one holds strictly fewer bytes than wanted, so no zero-byte want is parked |
| Scrubber.HandshakeScrubber.constructor | vncdotool/capture.py:53-73 | a fresh scrubber waits for the greeting with nothing pending |
| Scrubber.HandshakeScrubber.Pump | vncdotool/capture.py:127-140 | the loop computes exactly the drained state, rest and recording, and terminates |
| Scrubber.HandshakeScrubber.FeedTap | vncdotool/capture.py:110-147 | one feed takes the whole object from one quiet state to the specified one and returns the specified recording |
| Scrubber.HandshakeScrubber.FlushTap | vncdotool/capture.py:149-154 | pending bytes come out, unless a handshake is half rewritten, and the tap is left empty |
| Segmentation.DrainSplit | vncdotool/capture.py:127-140 | draining a then b is draining a+b, for every state and direction |
| Segmentation.FeedSplit | vncdotool/capture.py:105-147 | in every state between calls and for either tap, feeding a then b gives the same scrubber and concatenated output as feeding a+b |
| Segmentation.PlayTurns | vncdotool/capture.py:284-288 | a whole capture equals the capture of its turns: empty reads dropped, neighbouring reads in one direction joined |
| Segmentation.CaptureIgnoresChunking | vncdotool/capture.py:284-288 | two arrivals with the same turns leave the same scrubber and the same two recordings |
| Segmentation.DrainConserves | vncdotool/capture.py:137-138 | with preserve_auth a drain loses and invents no byte |
| Segmentation.PreserveConserves | vncdotool/capture.py:110-147 | with preserve_auth, over every interleaving and per direction, recorded plus pending grows by exactly what arrived |
| Segmentation.PreserveIsIdentity | vncdotool/capture.py:290-293 | with preserve_auth the flushed recording of each direction is what arrived in it |
| Segmentation.CaptureWriter.FeedStream | vncdotool/capture.py:284-288 | the scrubber's output is appended to the stream of its own direction and the other stream is left alone |
| Segmentation.CaptureWriter.FeedAll | vncdotool/capture.py:284-288 | a loop over all reads leaves the writer as the specified capture |
| Segmentation.CaptureWriter.Flush | vncdotool/capture.py:290-293 | both taps' flushed bytes are appended to their own streams |
| Rewrite.GreetingSection | vncdotool/capture.py:157-173 | both version lines are recorded as sent; the client's reply decides the branch |
| Rewrite.OfferSection | vncdotool/capture.py:175-197 | whatever was offered and chosen, followable or not, a single none offer and none choice are recorded, in the form of the negotiated version |
| Rewrite.AuthSection | vncdotool/capture.py:199-230 | none, type 0, VNC and ARD exchanges of any key length record nothing in either direction |
| Rewrite.ArdKeys | vncdotool/capture.py:205-211 | parameters, modulus and server key are followed and dropped for every key length, zero included |
| Rewrite.ResultSection | vncdotool/capture.py:232-243 | SecurityResult is recorded exactly from 3.8 up |
| Rewrite.InitSection | vncdotool/capture.py:245-257 | ClientInit, ServerInit and name are recorded as sent, geometry is learnt, and the grammar finishes exactly at the end of the name |
| Rewrite.GeometryReadsBack | vncdotool/capture.py:249-250 | the geometry kept from a ServerInit is the width and height it announces, in that order |
| Rewrite.SessionSection | vncdotool/capture.py:116-122 | past the handshake, everything in either direction is recorded as it arrives |
| Rewrite.ScriptRecords | vncdotool/capture.py:156-257 | the full recording and the full set of facts learnt from one followed handshake |
| Rewrite.CanonicalRewrite | vncdotool/capture.py:110-257 | for every followed handshake, every session after it and every chunking, the two recordings are fixed functions of the version replies, ClientInit, ServerInit, name and session bytes |
| Rewrite.AuthLeavesNoTrace | vncdotool/capture.py:110-257 | sessions differing only in offered types, auth type and auth payload record identical files |
| Runs.RunIsExact | vncdotool/capture.py:110-147 | from any point, a turn-taking run that ends with its handshake followed is exactly the chunks the grammar waited for, in its turns, and a session |
| Runs.TrailIsScript | vncdotool/capture.py:156-257 | any chunks that take the grammar through ServerInit to its end are the turns of a valid handshake script |
| Runs.EveryRunIsAScript | vncdotool/capture.py:110-257 | every turn-taking capture that follows its handshake to the end has the turns of some script and a session |
| Runs.EveryRunIsRewritten | vncdotool/capture.py:110-257 | so the canonical rewrite holds of every such run, not of an enumeration |
| Endings.RefusalSection | vncdotool/capture.py:175-194 | a refusal is recorded as it came |
| Endings.FailedSection | vncdotool/capture.py:234-242 | a failed SecurityResult is recorded as it came from 3.8 on, and dropped before |
| Endings.EarlyEnding | vncdotool/capture.py:156-243 | for every unreadable reply, refusal, unfollowable type and failed login, every byte after it and every chunking: the two recordings byte for byte, and everything known, the reason to give up included |
| Endings.EveryEarlyEnding | vncdotool/capture.py:110-243 | every turn-taking capture whose handshake ends without a session is one of those |
| Endings.AbortsFromTheStart | vncdotool/capture.py:90-97 | over every run, in turn or not: the capture is given up exactly for an unreadable reply or a type without a grammar, which is named |
| Endings.PreserveNeverAborts | vncdotool/capture.py:90-92 | over every run: with preserve_auth the scrubber stands and knows exactly what it does without, except that it never gives up |
| Idempotence.ShadowMirrors | vncdotool/capture.py:156-257 | a scrubber reading the recording stands, after every chunk, at a position determined by the recording scrubber's position |
| Idempotence.ShadowKeeps | vncdotool/capture.py:127-140 | what one scrubber records is a chunk the second waits for and records unchanged |
| Idempotence.DrainShadow | vncdotool/capture.py:127-140 | the same for all chunks of one read |
| Idempotence.FeedShadow | vncdotool/capture.py:110-147 | the same for a whole feed, including session bytes behind the end of the handshake |
| Idempotence.EchoInStep | vncdotool/capture.py:110-257 | the two captures stay in step over every turn-taking run that is not given up |
| Idempotence.StrippingIsIdempotent | vncdotool/capture.py:110-257 | re-feeding a successful stripped recording in its turns, in any pieces, records the same bytes and ends with the same versions and geometry |
| Idempotence.EchoIsTheRecording | vncdotool/capture.py:284-288 | what is re-fed is exactly the two recorded streams |
| Secrecy.DrainInAuth | vncdotool/capture.py:132-140 | a read that starts and ends inside the auth exchange records nothing |
| Secrecy.ExchangeLeavesNothing | vncdotool/capture.py:149-154 | over every turn-taking run that stays inside the auth exchange neither recording changes, and a disconnect there flushes nothing |
| ClientMessages.MessageLength | vncdotool/replay.py:76-102 | a measured length is positive, so framing always makes progress |
| ClientMessages.SawUpdateRequest | vncdotool/replay.py:105-123 | the loop returns the specified answer and leaves the specified rest, and terminates |
| ClientMessages.LengthIsStable | vncdotool/replay.py:76-102 | a length once measured, or a refusal to measure, never changes as more bytes arrive |
| ClientMessages.ScanResumes | vncdotool/replay.py:105-123 | scanning may stop and resume anywhere with the same answer |
| ClientMessages.Frame | vncdotool/replay.py:105-123 | any bytes are whole messages that ask for nothing and a tail that is incomplete, an update request or unmeasurable |
| ClientMessages.FramingIsUnique | vncdotool/replay.py:76-123 | and in only one way |
| ClientMessages.ScanTellsTail | vncdotool/replay.py:105-123 | on every stream the scan takes the plain messages off and answers yes exactly when the tail is an update request or unmeasurable; an unmeasurable message drops what follows |
| ClientMessages.PrintIsMeasured | vncdotool/replay.py:76-102 | every message a client writes, QEMU extended key events included, is measured at exactly its own length whatever follows, and only update requests look like update requests |
| ClientMessages.PrintIsUnderstood | vncdotool/rfb.py:1072-1115 | a server reading fields where RFC 6143 puts them understands exactly the message that was written |
| ClientMessages.UnmeasurableExactly | vncdotool/replay.py:96-102 | which heads cannot be measured however much follows |
| ClientMessages.CutMessageIsIncomplete | vncdotool/replay.py:117-118 | no proper prefix of a message is taken for a whole one |
| ClientMessages.ScanUndoesPrint | vncdotool/replay.py:105-123 | of any printed messages and an incomplete tail, exactly those through the first update request are removed, or all if there is none |
| Replay.Pace | vncdotool/replay.py:156-180 | pacing terminates, stays inside both streams, and stops only finished, truncated, refused or short of client bytes it waits for |
| Replay.ServedTo | vncdotool/replay.py:202-224 | never more than the recording is served |
| Replay.UngatedIsServedWhole | vncdotool/replay.py:164-167 | a recording that runs out in the handshake, or whose handshake ends without a session, goes out whole and the connection is kept |
| Replay.TurnedAwayExactly | vncdotool/replay.py:182-200 | the connection is closed if and only if the reply settles on another version than the recorded one, with exactly the greeting written; in every other case nothing more to write means all is written |
| Replay.PaceShort | vncdotool/replay.py:156-170 | before the reply is complete exactly the greeting is written, or all of a recording shorter than one |
| Replay.PaceResumes | vncdotool/replay.py:142-180 | with more client bytes pacing goes on from where it waited and changes nothing it had decided |
| Replay.ExhaustedIsFinal | vncdotool/replay.py:145-146 | once exhausted, no client input changes what was written |
| Replay.ServedGrows | vncdotool/replay.py:156-180 | what has been written is only ever extended |
| Replay.GateHolds | vncdotool/replay.py:202-224 | once ServerInit is followed, for every client stream: the recording stops at the end of the server name exactly while the stream's tail is incomplete (or nothing is left), and goes out whole with an update request or an unmeasurable message |
| Replay.GateForMessages | vncdotool/replay.py:202-224 | for a client using the writers of `RFBClient`: the first update request opens the gate and nothing else does |
| Replay.PaceSettles | vncdotool/replay.py:160-179 | the scrubber stepping over zero-byte wants inside a feed does not change the pacing |
| Replay.ExactFeed | vncdotool/replay.py:168-177 | feeding exactly what is waited for advances the scrubber, leaves nothing pending and parks no zero-byte want |
| Replay.ReplayProtocol.constructor | vncdotool/replay.py:130-140 | on connect the server has written what an unanswered client is owed |
| Replay.ReplayProtocol.SendChunk | vncdotool/replay.py:162-170 | a recorded chunk is written, the position advances with it, and the grammar's rank drops |
| Replay.ReplayProtocol.TakeChunk | vncdotool/replay.py:171-179 | a client chunk is consumed and followed, or the version check ends the connection |
| Replay.ReplayProtocol.VersionMismatch | vncdotool/replay.py:182-200 | the check fires once, on the first negotiated version, and closes the connection exactly if the archive names another |
| Replay.ReplayProtocol.FollowHandshake | vncdotool/replay.py:156-180 | the loop terminates on every archive, truncated ones included, in the state pacing specifies |
| Replay.ReplayProtocol.ServeSession | vncdotool/replay.py:202-224 | the rest goes out exactly when specified |
| Replay.ReplayProtocol.DataReceived | vncdotool/replay.py:142-150 | after any sequence of reads, what has been written is the prefix of s2c.bin that the concatenation of all client bytes determines |
| ClientHandshake.NegotiateIsGreatest | vncdotool/rfb.py:227-246 | the version settled on is the greatest supported one the server reaches, capped at 3.8; none exactly below 3.3 |
| ClientHandshake.Preferred | vncdotool/rfb.py:262-269 | the greatest offered supported type, none exactly if there is none |
| ClientHandshake.Utf8Length | vncdotool/rfb.py:348-348 | encoding never shortens a string and keeps its length exactly if it is ASCII |
| ClientHandshake.ArdLengthHolds | vncdotool/rfb.py:325-349 | the credentials to encrypt are 128 bytes exactly when username and password have at most 64 characters and are ASCII |
| ClientHandshake.ArdLengthFails | vncdotool/rfb.py:325-349 | 80 ASCII characters, or 16 two-byte ones, make 144 bytes, which are whole AES blocks |
| ClientHandshake.Utf8ReadsBack | vncdotool/rfb.py:348-348 | the encoding decodes, by RFC 3629, to the characters encoded |
| ClientHandshake.ArdPlaintextReads | vncdotool/rfb.py:325-326 | for any username and password the plaintext says first the one, then the other, each followed by zeros up to 64 characters |
| ClientHandshake.ArdPlaintextBytes | vncdotool/rfb.py:325-326 | for credentials that fit, byte by byte |
| ClientHandshake.VncKey | vncdotool/rfb.py:1252-1252 | the DES key is the first eight characters of the password, with zeros behind a shorter one |
| ClientHandshake.Handle | vncdotool/rfb.py:227-410 | every handler moves strictly closer to an end, or complains once, writes nothing and stays armed; on no bytes at all it moves, unless it is one of those the loop never leaves |
| ClientHandshake.VerdictStays | vncdotool/rfb.py:251-253 | a greeting once found wrong or too old, however few bytes of it have come, stays so |
| ClientHandshake.AcceptedGreeting | vncdotool/rfb.py:227-250 | no prefix of a greeting that can be negotiated is found wrong |
| ClientHandshake.GivingUpStopsNothing | vncdotool/rfb.py:1031-1044 | a handler that gives up is called again with the next bytes; nothing more happens if and only if fewer bytes than it takes follow |
| ClientHandshake.LoopEndsExactly | vncdotool/rfb.py:1031-1044 | the receive loop, run round by round, ends if and only if it meets no refusal and no failed login with an empty text, and then ends where specified |
| ClientHandshake.HangsExactly | vncdotool/rfb.py:1025-1044 | so from the greeting on, for everything ever received |
| ClientHandshake.RefusalIsHeard | vncdotool/rfb.py:296-302 | at any version, a refusal leads from the version reply to its text and what follows |
| ClientHandshake.RefusalIsReported | vncdotool/rfb.py:296-302 | nothing but the version reply is written; the refusal is quoted in full, once, if and only if its text is not empty and fewer bytes than it has follow |
| ClientHandshake.EmptyRefusalHangs | vncdotool/rfb.py:296-302 | after an empty refusal the loop goes round for ever, complaining once each time |
| ClientHandshake.LoginFailureIsReported | vncdotool/rfb.py:366-394 | from 3.8 on a failed login is quoted in full, once, and nothing is written, if and only if its text is not empty and fewer bytes than it has follow |
| ClientHandshake.EarlyLoginFailure | vncdotool/rfb.py:366-386 | before 3.8 what follows a failed login is read as another result; a zero there makes the client write its shared flag |
| ClientHandshake.UnknownOfferIsReread | vncdotool/rfb.py:262-281 | what follows an offer without a known type is read as another offer of as many types |
| ClientHandshake.UnknownSchemeIsReread | vncdotool/rfb.py:283-294 | the same for a scheme the server decides |
| ClientHandshake.UnknownResultIsReread | vncdotool/rfb.py:384-386 | and for an unknown SecurityResult at any version |
| ClientHandshake.ChallengeWithoutPassword | vncdotool/rfb.py:1125-1132 | without a password the challenge is answered with silence, the connection given up, and the result awaited |
| ClientHandshake.CrashesExactly | vncdotool/rfb.py:227-354 | a handler raises exactly for a version line below 3.3, a password that makes no DES key, and credentials that are not whole AES blocks, and has then written nothing |
| ClientHandshake.WrongExactly | vncdotool/rfb.py:228-253 | a greeting is found wrong exactly when its first twelve bytes begin no well-formed version line |
| ClientHandshake.ConverseResumes | vncdotool/rfb.py:1025-1066 | the handshake client may stop and resume anywhere with the same state, writes and complaints, parked handlers included; only a wrong greeting is complained of once per read |
| ClientHandshake.WritesGrow | vncdotool/rfb.py:1025-1066 | more server bytes only extend what the client has written |
| ClientHandshake.HandshakeClient.DataReceived | vncdotool/rfb.py:1025-1066 | after any sequence of reads, state, writes and complaints are those of all the bytes in one piece, a wrong greeting being complained of at every read; the call is flagged as hung exactly when the loop does not end |
| Dialogue.CertificateTalk | vncdotool/rfb.py:309-354 | to a printed ARD exchange the client writes exactly the credentials encrypted under its generator, modulus and server key, and its public key |
| Dialogue.ClientSaysItsLines | vncdotool/rfb.py:227-410 | to any server it can satisfy, at any version and with any authentication, the client writes exactly its version, its choice, its answer and the shared flag, complains of nothing, ends connected and leaves what follows unread |
| Lockstep.SameBoundary | vncdotool/capture.py:156-257 | wherever client and grammar are together they want the same number of server bytes |
| Lockstep.GreetingReadsBack | vncdotool/capture.py:164-173 | any well-formed version line means the same to scrubber and client |
| Lockstep.ReplyReadsBack | vncdotool/rfb.py:243-243 | the client's own replies parse to the versions it negotiated |
| Lockstep.GreetingStep | vncdotool/rfb.py:227-250 | after the greeting and the client's reply both are in the same branch |
| Lockstep.OfferStep | vncdotool/rfb.py:262-278 | after the offer the grammar waits for exactly the choice, and the shared flag when it follows at once |
| Lockstep.SchemeStep | vncdotool/rfb.py:283-291 | the same for a type the server decides, before 3.7 |
| Lockstep.ChallengeStep | vncdotool/rfb.py:304-307 | after the challenge the grammar waits for exactly the response, if and only if that has 16 bytes; without a password it has none |
| Lockstep.CertStep | vncdotool/rfb.py:317-323 | after the ARD server key the grammar waits for exactly what the client writes if and only if that is 128 bytes and a key as long as the modulus |
| Lockstep.ArdIsFollowedExactly | vncdotool/rfb.py:325-354 | for ARD the two stay together if and only if username and password have at most 64 characters and are ASCII |
| Lockstep.LongUsernameIsNotFollowed | vncdotool/rfb.py:325-354 | with 80 characters, or 16 accented ones, the client writes 16 bytes more than the scrubber takes, and those are what is left over |
| Lockstep.ResultStep | vncdotool/rfb.py:366-371 | after a good SecurityResult the grammar waits for exactly the shared flag |
| Lockstep.SilentStep | vncdotool/rfb.py:309-315 | handlers that write nothing leave the grammar waiting for the server |
| Lockstep.LockstepStep | vncdotool/rfb.py:227-410 | for every handler, position and block at which the client does not give up: the grammar waits for exactly what the client writes and both are together again, with the same version, if and only if the answer has the length the grammar expects |
| Lockstep.LockstepAllTheWay | vncdotool/rfb.py:227-410 | the grammar stays beside a client that connects, block by block to exactly the end of the server name, if and only if every answer on the way has the expected length |
| Lockstep.WellAnsweredExactly | vncdotool/rfb.py:304-364 | with DES, AES and Diffie-Hellman as they are, the answers have those lengths if and only if a challenge the run meets finds a password whose first eight characters are ASCII, and an ARD certificate it meets finds credentials that fit |
| Lockstep.LockstepFromTheStart | vncdotool/capture.py:156-257 | so from the greeting on, for every server stream that takes the client to connection-made |
| Composed.PaceDrains | vncdotool/replay.py:171-179 | client bytes the grammar follows completely take the replay server along with it |
| Composed.PaceGreets | vncdotool/replay.py:182-200 | the version reply of a client that negotiates the recorded version passes the check |
| Composed.MeetStep | vncdotool/replay.py:156-180 | with both channels empty, the server's next block has been heard and answered, and the answer taken |
| Composed.Meet | vncdotool/replay.py:156-224 | with both channels empty the handshake is complete on both sides |
| Composed.LeftOver | vncdotool/rfb.py:406-410 | a client past the server name has kept exactly the bytes past it |
| Composed.NeverStuck | vncdotool/rfb.py:1031-1044 | on the way to a connection the receive loop always ends |
| Composed.QuietMeansConnected | vncdotool/replay.py:156-224 | no deadlock: nothing in flight means connected, with the recording received exactly through the server name, or all of it once an update was asked for, and exactly the rest of it left to the session |
| Composed.ConnectedIsSilent | vncdotool/rfb.py:406-410 | after connection-made the handshake writes nothing more |
| Composed.Link.DeliverDown | vncdotool/rfb.py:1025-1029 | any cut of bytes in flight reaches the client with FIFO order kept on both channels, and what the handshake leaves reaches the session parser |
| Composed.Link.DeliverUp | vncdotool/replay.py:142-150 | the same towards the server |
| Composed.Link.RunToQuiet | vncdotool/replay.py:156-224 | under every schedule and every cut the deliveries terminate with the client connected, the specified bytes received and exactly their callbacks made |
| Composed.Link.ReplaySession | vncdotool/replay.py:202-224 | connect, chatter without a request, then a request: the recording is held at the server name with no callback made, and then received whole with exactly the callbacks of its session |
| Composed.StrippedLeads | vncdotool/capture.py:156-257 | a stripped recording takes any client negotiating its version, whatever its credentials, to connection-made exactly at the end of the server name |
| Composed.EveryCaptureIsPlayable | vncdotool/capture.py:110-257 | replay undoes capture: the archive of any followed session, whatever its auth and chunking, is playable and continues with the session bytes |
| Composed.EveryRunIsPlayable | vncdotool/capture.py:110-257 | the archive of any turn-taking capture that follows its handshake is playable to a client if and only if that client negotiates the recorded version |
| Composed.NothingToFlush | vncdotool/capture.py:149-154 | a stripping scrubber between calls never has anything a flush would add |
| Composed.Record | vncdotool/capture.py:284-337 | the archive made from a connection's reads, flushed at its end, is that of the specified capture |
| Composed.Serve | vncdotool/replay.py:130-150 | a fresh client served a playable archive holds it through the server name until it asks, and all of it after, and calls back exactly what its session says |
| Composed.CaptureThenReplay | vncdotool/replay.py:126-128 | end to end, for any client: any followed session recorded in any pieces and served over any cuts arrives as the stripped handshake and then the original session bytes, and calls back exactly what those say |
| Composed.ReplayRun | vncdotool/replay.py:126-128 | the same for every capture whose ends take turns and whose handshake is followed to its end, and every client that negotiates the recorded version |
| Composed.ReplayedMessages | vncdotool/rfb.py:415-1044 | if the captured server sent well-formed messages, the replayed client makes exactly the callbacks they stand for |
| Session.React | vncdotool/rfb.py:415-1020 | Hextile handlers are only ever armed with a tile inside its rectangle |
| Session.NextRectangle | vncdotool/rfb.py:436-441 | after a rectangle the parser waits for a header or a message, never for nothing |
| Session.NextTile | vncdotool/rfb.py:612-645 | the next tile is inside the rectangle, or the rectangle is finished |
| Session.ZeroIsNeverTwice | vncdotool/rfb.py:1031-1044 | no two zero-length handlers follow each other, so the receive loop terminates |
| Parsing.Run | vncdotool/rfb.py:1031-1044 | the loop stops only short of bytes or halted, and an abort drops what was buffered |
| Parsing.RunResumes | vncdotool/rfb.py:1025-1066 | reading a then b is reading a+b |
| Parsing.ChunkingIsInvisible | vncdotool/rfb.py:1025-1066 | for every list of chunks, state and callback trace are those of their concatenation |
| Parsing.AbortStep | vncdotool/rfb.py:517-525 | only a rectangle header aborts, with exactly one error, reported last |
| Parsing.AbortIsFinal | vncdotool/rfb.py:1046-1055 | after an abort its error is the last callback ever, whatever arrives |
| Parsing.SessionClient.CallHandler | vncdotool/rfb.py:1038-1042 | one handler call, with the RRE, Hextile and ZRLE loops the source runs in it, reacts as specified |
| Parsing.SessionClient.DataReceived | vncdotool/rfb.py:1025-1044 | after any sequence of reads the trace is that of all the bytes received; callbacks are only ever appended |
| Parsing.PaintRreSubrects | vncdotool/rfb.py:572-581 | the loop paints the specified subrectangles in order |
| Parsing.PaintPlainSubrects | vncdotool/rfb.py:840-850 | the loop paints the specified subrectangles in the foreground colour |
| Parsing.PaintColouredSubrects | vncdotool/rfb.py:808-822 | the loop paints each subrectangle in its own colour and leaves the last colour behind |
| Accounting.NextRectangleAgrees | vncdotool/rfb.py:436-441 | the books close exactly when the announced count is used up |
| Accounting.HeaderAgrees | vncdotool/rfb.py:443-481 | every header is entered once, and listed exactly if it carries pixels; LastRect closes |
| Accounting.ReactAgrees | vncdotool/rfb.py:415-1020 | every handler call without an error keeps parser and auditor in agreement |
| Accounting.BooksBalance | vncdotool/rfb.py:430-481 | on every run without an error, each begin is answered by one commit before the next, with exactly the painted rectangles in order |
| Accounting.SessionIsAccountedFor | vncdotool/rfb.py:430-481 | so for every session from its first byte, with no update open between messages |
| Accounting.ErrorsExactly | vncdotool/rfb.py:415-525 | a handler call complains if and only if it met an unknown message, an unknown encoding or an oversize Raw rectangle |
| ServerMessages.RreReadsBack | vncdotool/rfb.py:561-582 | an RRE rectangle is read back with its background and every subrectangle in place |
| ServerMessages.ZrlePaints | vncdotool/rfb.py:870-982 | a ZRLE block is decoded, on the connection's one zlib stream, to exactly the paints of its tiles |
| ServerMessages.ZrleFailureCrashes | vncdotool/rfb.py:870-982 | a tile that cannot be read ends the session behind exactly the paints of the tiles before it, whatever follows |
| ServerMessages.BodyReadsBack | vncdotool/rfb.py:443-597 | Raw, CopyRect, RRE, CoRRE without subrectangles, Hextile, ZRLE and cursor bodies are consumed exactly and make exactly their callbacks |
| ServerMessages.CorreSubrectsCrash | vncdotool/rfb.py:586-608 | a CoRRE rectangle with subrectangles ends the session behind its background fill, whatever follows |
| ServerMessages.OversizeAborts | vncdotool/rfb.py:517-525 | a Raw rectangle ends the session at its header, with one error and nothing after it whatever arrives, exactly when it exceeds a known framebuffer side |
| ServerMessages.UnknownEncodingIsReported | vncdotool/rfb.py:475-480 | a rectangle in an encoding that is none of the ten makes one error behind its header, and what follows is read as headers |
| ServerMessages.UnknownMessageIsReported | vncdotool/rfb.py:426-428 | a message type above 3 makes one error, and the next byte is the next message |
| ServerMessages.ZlibErrorCrashes | vncdotool/rfb.py:881-881 | a block zlib refuses ends the session with nothing painted |
| ServerMessages.OneRectReadsBack | vncdotool/rfb.py:443-481 | header and body of any rectangle, pseudo-encodings and Hextile without height included |
| ServerMessages.RectsReadBack | vncdotool/rfb.py:436-481 | the rest of an update from any point of it, ended by its count or by LastRect |
| ServerMessages.MessageReadsBack | vncdotool/rfb.py:415-441 | every server message is consumed exactly and makes exactly its callbacks |
| ServerMessages.ParseUndoesPrint | vncdotool/rfb.py:415-1020 | the parser undoes the encoder on every list of well-formed messages, ZRLE paints included |
| ServerMessages.SessionReadsBack | vncdotool/rfb.py:1025-1044 | however the printed session is cut into reads |
| Tiling.TilesPartition | vncdotool/rfb.py:628-645 | the clipped tiles cover every pixel of the rectangle exactly once and none outside it |
| Hextile.PartsReadBack | vncdotool/rfb.py:710-772 | colours and subrectangle count are read from the right places for every combination of flags |
| Hextile.SubReadsBack | vncdotool/rfb.py:814-819 | position and size nibbles are read back |
| Hextile.ColouredReadsBack | vncdotool/rfb.py:808-822 | coloured subrectangles are read back in order, and the last colour is what is carried on |
| Hextile.PaintedTileReadsBack | vncdotool/rfb.py:647-772 | a non-raw tile is consumed exactly and paints background and subrectangles with the colours in force |
| Hextile.RawTileReadsBack | vncdotool/rfb.py:774-790 | a raw tile, whatever else its flags say, is consumed exactly and carries the colours past it |
| Hextile.TilesReadBack | vncdotool/rfb.py:612-851 | from any tile on, background and foreground are carried across tiles |
| Hextile.HextileUndoesPrint | vncdotool/rfb.py:612-851 | for every rectangle, one without height included, and every tile list RFC 6143 allows for it, header and printed tiles are consumed exactly and make exactly those paints |
| Zrle.TakeRunBytes | vncdotool/rfb.py:911-918 | reading a run length consumes at least one byte, so RLE loops terminate |
| Zrle.ReadRunBytes | vncdotool/rfb.py:911-916 | the loop reads the specified run length |
| Zrle.ReadPlainRle | vncdotool/rfb.py:920-926 | the loop expands plain runs as specified, error cases included |
| Zrle.ReadPaletteRle | vncdotool/rfb.py:928-941 | the loop expands palette runs as specified, error cases included |
| Zrle.ReadPixels | vncdotool/rfb.py:948-951 | the loop reads raw pixels as specified |
| Zrle.ReadPacked | vncdotool/rfb.py:102-141 | the loop over the index generators looks indices up as they come, so that a bad index is reported before missing data |
| Zrle.LookedIsLookUp | vncdotool/rfb.py:970-971 | looking up index by index is looking up the whole stream, and fails wherever the stream does |
| Zrle.ReadTile | vncdotool/rfb.py:904-974 | one tile by its subencoding, as specified |
| Zrle.DecodeRectangle | vncdotool/rfb.py:894-980 | the tile loop makes the specified paints and ends with the specified error, if any |
| Zrle.TileSettles | vncdotool/rfb.py:904-974 | a tile once read, and an error once found, stay so whatever more arrives; only want of data can be mended |
| ZrleRoundTrip.RunReadsBack | vncdotool/rfb.py:911-918 | every run length is read back |
| ZrleRoundTrip.RunsReadBack | vncdotool/rfb.py:920-926 | plain runs that add up to the tile are accepted and give its pixels |
| ZrleRoundTrip.PaletteRunsReadBack | vncdotool/rfb.py:928-941 | the same for palette runs, single and longer |
| ZrleRoundTrip.StreamReads | vncdotool/rfb.py:102-141 | of any packed stream exactly the first `count` indices are read, and the bytes they end in |
| ZrleRoundTrip.PackedReads | vncdotool/rfb.py:959-974 | any packed tile, of any width, gives the first w*h indices of its padded rows |
| ZrleRoundTrip.PackedReadsBack | vncdotool/rfb.py:959-974 | packed rows that fill whole bytes, or a single row, give the tile's pixels for palettes of 2 to 16 colours |
| ZrleRoundTrip.PaddingIsRead | vncdotool/rfb.py:102-141 | otherwise a second row that does not start with colour 0 is never read back |
| ZrleRoundTrip.PackedReadsBackExactly | vncdotool/rfb.py:959-974 | a palette and a size can be packed without loss if and only if rows fill whole bytes or there is one row |
| ZrleRoundTrip.NarrowTileFails | vncdotool/rfb.py:102-114 | two pixels, one above the other, come out in one colour and leave a byte for the next tile |
| ZrleRoundTrip.OneColourPerPixel | vncdotool/rfb.py:902-902 | every kind of tile stands for exactly one colour per pixel of its area |
| ZrleRoundTrip.TileReadsBack | vncdotool/rfb.py:904-974 | each kind of tile is consumed exactly and painted with its pixels |
| ZrleRoundTrip.ZrleUndoesPrint | vncdotool/rfb.py:870-982 | for every rectangle and every encoding of its 64x64 tiles: one paint per tile, in order, each with the tile's pixels, and no error |
| ZrleRoundTrip.FailsAfter | vncdotool/rfb.py:894-980 | from any tile on, a tile that cannot be read ends the rectangle with its error after exactly the paints of the tiles before it |
| ZrleRoundTrip.OverlongRunIsRejected | vncdotool/rfb.py:925-926 | in any tile of any rectangle, plain runs that overshoot it are rejected: the tiles before are painted, it is not |
| ZrleRoundTrip.OverlongPaletteRunIsRejected | vncdotool/rfb.py:940-941 | the same for palette runs |
| ZrleRoundTrip.PaletteOvershootIsRejected | vncdotool/rfb.py:928-941 | from any point of a tile, palette runs that overshoot it are rejected |
| ZrleRoundTrip.CutRectangleRunsOut | vncdotool/rfb.py:884-892 | a rectangle cut short inside any kind of tile runs out of data after exactly the tiles before it |
| ZrleRoundTrip.BigPaletteIsRejected | vncdotool/rfb.py:959-960 | a packed palette of 17 to 127 colours is rejected in any tile |
| ZrleRoundTrip.BadRunIndexIsRejected | vncdotool/rfb.py:930-939 | a palette run whose index names no colour is rejected in any tile, behind any good runs |
| ZrleRoundTrip.BadPackedIndex | vncdotool/rfb.py:970-971 | so is a packed index, even where the data end behind its byte |
| RectBuffers.RectBuffer.constructor | vncdotool/decoders/buffer.py:7-25 | a fresh buffer of width * height * bypp bytes with nothing written |
| RectBuffers.RectBuffer.Over | vncdotool/decoders/buffer.py:7-25 | a backing is accepted exactly if it holds width * height * bypp bytes, whatever they are |
| RectBuffers.RectBuffer.Store | vncdotool/decoders/buffer.py:56-56 | a slice assignment replaces exactly its bytes |
| RectBuffers.RectBuffer.Prepare | vncdotool/decoders/buffer.py:89-101 | afterwards the backing holds the picture so far, stale bytes gone, and nothing past the rectangle changed |
| RectBuffers.RectBuffer.WriteRows | vncdotool/decoders/buffer.py:59-63 | the row loop is one write on the canvas |
| RectBuffers.RectBuffer.WriteBand | vncdotool/decoders/buffer.py:53-57 | so is the single assignment for full-width rows |
| RectBuffers.RectBuffer.WholeFill | vncdotool/decoders/buffer.py:69-82 | a fill of the whole rectangle needs no clearing |
| RectBuffers.RectBuffer.BlitPixels | vncdotool/decoders/buffer.py:36-63 | a blit is accepted exactly when it lies inside and has w * h * bypp bytes, is then one more write on the canvas, and otherwise changes nothing; bytes past the rectangle are never touched |
| RectBuffers.RectBuffer.FillColor | vncdotool/decoders/buffer.py:65-87 | a fill is accepted exactly when it lies inside and its colour is one pixel, is then one more write on the canvas, and otherwise changes nothing |
| RectBuffers.RectBuffer.ToBytes | vncdotool/decoders/buffer.py:103-106 | after at least one accepted write, the accepted writes folded over an all-zero canvas |
| RectBuffers.WriteMeaning | vncdotool/decoders/buffer.py:36-87 | one write, byte by byte: a pixel it covers becomes what the write has there, any other stays |
| RectBuffers.HeldIsFlat | vncdotool/decoders/buffer.py:103-106 | a canvas laid out row by row is read out as its rows in order |
| RectBuffers.DecodeRaw | vncdotool/decoders/raw.py:18-22 | a Raw rectangle comes out as its bytes, whatever the reused backing held |
| PixelFormats.BytePositions | vncdotool/pixelformat.py:31-47 | the loop places the channels as specified |
| PixelFormats.PositionsMeaning | vncdotool/pixelformat.py:31-47 | channels are placed exactly when each is byte-aligned and no two share a byte |
| PixelFormats.WireByte | vncdotool/pixelformat.py:31-47 | each byte on the wire is the channel placed there in either byte order, or zero |
| PixelFormats.RawModeReadsBack | vncdotool/pixelformat.py:50-74 | a resolved 24 or 32 bpp raw mode reads back exactly the channels packed by shift and endianness |
| PixelFormats.RawModeResolves | vncdotool/pixelformat.py:58-65 | exactly which 32 bpp layouts have a raw mode |
| PixelFormats.RawMode24Resolves | vncdotool/pixelformat.py:67-74 | exactly which 24 bpp layouts have a raw mode |
| PixelFormats.RawMode16Resolves | vncdotool/pixelformat.py:76-99 | exactly which 16 bpp layouts have one |
| PixelFormats.RawMode16ReadsBack | vncdotool/pixelformat.py:86-92 | a resolved 16 bpp mode, its letters read from the lowest bit up, reads back the packed channels |
| PixelFormats.RawModeIsTrueColour | vncdotool/pixelformat.py:53-54 | colour-mapped formats and other sizes never resolve |
| PixelFormats.CpixelIsThreeWhenPossible | vncdotool/pixelformat.py:101-124 | a format eligible by depth keeps four bytes exactly when it has colour bits in both its lowest and its highest byte |
| PixelFormats.CpixelLosesNothing | vncdotool/pixelformat.py:101-137 | whenever a CPIXEL is three bytes, zero-extending the window at its offset restores the pixel |
| PixelFormats.CpixelPrefersLow | vncdotool/pixelformat.py:107-113 | where three bytes fit at either end the low ones are used |
| PixelFormats.CpixelSizeExactly | vncdotool/pixelformat.py:116-125 | a pixel takes three bytes exactly for a true-colour 32 bit format of depth at most 24 without colour bits at both ends, and its whole bytes otherwise |
| OneShot.ClaimIsExclusive | vncdotool/loggingproxy.py:289-344 | over every interleaving on any number of connections, at most one connection is served or has been a session, and the claim holds exactly then |
| OneShot.ClaimFromTheStart | vncdotool/loggingproxy.py:289-344 | so from an idle factory, and sessionFinished fires at most once |
| OneShot.RefusedChangesNothing | vncdotool/loggingproxy.py:292-299 | being refused, and whatever a refused connection does, leaves the claim, the count and every other connection alone |
| OneShot.RefusedExactly | vncdotool/loggingproxy.py:289-299 | in a one-shot run a connection is refused if and only if another was being served, or a session had ended, when it connected |
| OneShot.FirstIsServed | vncdotool/loggingproxy.py:289-309 | the first connection to an idle proxy is served |
| OneShot.EveryoneIsServed | vncdotool/loggingproxy.py:289-344 | without one-shot, over every run, nobody is refused, nothing is claimed and nothing finishes |
| OneShot.SessionsAreRecalled | vncdotool/loggingproxy.py:316-344 | over every run a connection is a session exactly if it was served and closed after carrying bytes |
| OneShot.VNCLoggingServerFactory.ConnectionMade | vncdotool/loggingproxy.py:289-309 | accept or refuse, claiming the session on accept |
| OneShot.VNCLoggingServerFactory.DataReceived | vncdotool/loggingproxy.py:373-381 | bytes mark the connection a session unless it was refused |
| OneShot.VNCLoggingServerFactory.ConnectionLost | vncdotool/loggingproxy.py:316-344 | a session ends the run, an empty connection releases its own claim |

## Left out

- Twisted's reactor, timers and deferreds, logging, zip and JSON files, the command line and `api.py`: plumbing around the machines modelled here.
- zlib, DES, AES, Diffie-Hellman and Pillow: foreign calls. What zlib makes of a block after the blocks before it, and the auth replies, are parameters, and a raw mode is read by its letters.
- ClientHandshake.Handle: what the cryptography library itself refuses (a modulus too short for Diffie-Hellman, say) is not modelled; an exception there would end the handshake like any other.
- Secrets.Proper: that DES answers 16 bytes with 16, that AES in ECB mode keeps lengths and that a public key is as long as the modulus are facts about foreign code. Only results about challenges ask for them.
- Composed.Link: pixel size and framebuffer size, which the client reads from ServerInit, are a parameter of the session parser.
- Session.React: `setPixelFormat` during a session and DesktopSize changing the rectangle limit are not modelled: both are fixed when the session starts.
- ClientHandshake.HandshakeClient.DataReceived: after an exception the reactor drops the connection, so nothing is modelled behind one. `loseConnection` itself is not modelled either: bytes may still arrive.
- ServerMessages.ParseUndoesPrint: CoRRE is printed without subrectangles only, because the source's handler for them always raises (`CorreSubrectsCrash`).
- Idempotence.StrippingIsIdempotent: speaks of runs in which a side waits for its turn; bytes sent out of turn pass through the scrubber unwatched. The same holds of `Runs`.
- ZrleRoundTrip.ZrleUndoesPrint: packed tiles whose rows are padded are not printed, because the source does not read them back (`PackedReadsBackExactly`); nor are packed tiles without pixels, for which the source reads on to the end of the data.
- ZRLE for pixel layouts other than the hard-coded three bytes and 0xFF.
- RectBuffers.RectBuffer.ToBytes: before any accepted write it returns the backing as it is, and nothing is claimed.
- Pillow itself: what its raw modes read, 16 bpp ones included, is taken from their names.
- The proxy's own semantic parser (`RFBServer`), `VMWareClient.dataReceived`, cursor drawing and image comparison.
