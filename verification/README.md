# A model of mcabber-jingle

mcabber-jingle adds Jingle sessions (XEP-0166) to the mcabber client: file transfer (XEP-0234) over In-Band
Bytestreams (XEP-0261, XEP-0047), and the SOCKS5 negotiation (RFC 1928) of a second transport. This project models
its protocol logic in Dafny and proves properties of it. `dafny verify dfyconfig.toml` checks everything.

## What is modelled

**A transfer of one file.** The sender is a pull pipeline: the file transfer reads up to 2048 bytes, hands them to the
session layer, that to the transport, which queues them and either sends one block or asks the session layer for more,
which calls the file transfer again. Every acknowledgement starts the pipeline anew; the end of the file flushes what is
queued and announces the digest and the end of the session without waiting.

- `Ibb.dfy` holds the bytestream with its byte array: the two ways of appending, the shift of the rest over itself, the
  negotiation of the block size with the 32-bit and 64-bit conversions written out.
- `Sender.dfy` specifies the events of the sending side on values; `Pipeline.dfy` runs them the way the code does, as
  methods that call each other in a circle on mutable objects, and proves that each does what the specification says
  and that the recursion ends.
- `Sink.dfy` is the receiving side of one file under any pattern of file system faults, as a specification and as a
  class that refines it.
- `Transfer.dfy` puts both parties on the two first-in first-out directions of a stream. A world fixes what every
  attempt to read and to write does; a run is any list of steps (an accept with any block size, the start, the
  delivery of one stanza, the delivery of one reply), and a step that is not possible changes nothing, so a statement
  about all lists of steps is one about all schedules. `SenderProofs.dfy` and `TransferProofs.dfy` hold the
  invariants, `SenderEvents.dfy` says what each event does to the sender, `TransferTheorems.dfy` and
  `TransferProgress.dfy` hold the results, `TransferEnding.dfy` when a transfer ends and when it cannot. The session
  of the sender has one content, as in the only place of the repository that makes one (jingle-ft/filetransfer.c:460);
  `NullReads.dfy` proves that this holds over every run of the session layer.

**The session layer.** `Sessions.dfy` is the session list with its first-match searches and the map it stands for;
`Offers.dfy` what a session-initiate stores, and `SharedError.dfy` what becomes of the one error variable that all its
offers share; `Handlers.dfy` the handlers of the Jingle actions, of bytestream packets and of their acknowledgements
as functions on the state of one party; `Jingle.dfy` the same handlers as methods with the loops of the code, proved
to compute those functions. A party that reads through NULL, reads an error it has freed, or takes one struct for
another is gone: it does nothing any more. `HandlerTheorems.dfy` proves what every run of events keeps;
`NullReads.dfy` exactly which events a party does not survive; `EventMeaning.dfy` says what each handler answers and
leaves behind in terms of the fields of the stanza and of the party. `Folding.dfy` is the comparison of names and
digests up to ASCII case.

`Isolation.dfy` takes the party apart: what it knows of one incoming transfer, its file and its session, changes like
a small machine that sees the events of that session and bytestream only. This holds for all events, of all kinds, as
long as the party survives and no session-initiate takes the identifier of the bytestream over, and no longer.
`IncomingFiles.dfy` says what the file then consists of, `Ready.dfy` that an accepted offer starts such a machine, and
`Responder.dfy` that the machine is the lone receiver of `Transfer.dfy`, so that the end-to-end result holds from the
session-initiate on, with any other events in between. `Outgoing.dfy`, `OutgoingProofs.dfy` and `OutgoingTheorems.dfy`
do the same for the other side: a party with many outgoing transfers, each of which is the lone sender of
`Transfer.dfy`, and silent once the peer has ended its session. `FailingRuns.dfy` has concrete runs that go wrong.

**The choice of a transport** is in `Register.dfy`, **the SOCKS5 negotiation** in `Socks5.dfy` (messages, parsers,
client callbacks on values), `Socks5Callbacks.dfy` (the client's callbacks on a buffer with a running offset),
`Socks5Client.dfy` and `Socks5Server.dfy` (all runs over a stream cut into arbitrary pieces).

## What is assumed

- The stream delivers in order and loses nothing (RFC 6120, section 10.1). The receiver parses `seq` and never looks at
  it, so nothing else would notice.
- A read that succeeds brings 1 to 2048 bytes; the file does not change, and its size is the one announced.
- The transport of an accepted content reports once that it is ready. In this snapshot `init` of the bytestream
  (jingle-ibb/ibb.c:339) makes no such report; the steps `Start` and `Started` stand for it.
- MD5 is any function from byte strings to strings, and base64 gives back what was put in.
- Stanzas carry `from` and `to`, as servers stamp them. Random identifiers are arbitrary; the theorems that need
  fresh ones say so.
- Loops that walk a list while removing the current node (jingle/action-handlers.c:278-284, jingle/sessions.c:314-317)
  visit every content once.
- SOCKS5 operations move at least one byte.
- Memory is not handed out again after it has been freed. This matters where a bytestream is diverted: the table frees
  the struct it replaces (jingle-ibb/ibb.c:416), and a listed content still points to it; if a later bytestream were
  given the same address, its packets would go to that content.

## Where the code does not do what it is meant to do

Each of these is proved, with the exact condition under which the code meets the intention and with an input or a run
that shows the failure.

- A block size of zero passes all checks, in an offer and in an accept at any time. A started transfer can still end if
  and only if the block size is at least one, or it has ended, or nothing is left to send (`EndsIff`); otherwise no
  continuation sends another byte (`NeverEnds`, `ZeroInMiddleIsStuck`).
- The check for negative block sizes in an offer never fires, because the field is unsigned. What is stored is the value
  modulo 2^32, at most 4096; this can be zero (`OfferIsNeverRefused`, `NegativeOfferExamples`).
- A session-initiate that names a bytestream already in use diverts it: packets of the running transfer then never
  reach its file (`DivertedIff`, `DiversionExample`).
- The acknowledgement of the last block finds no session and does nothing, unless the identifier of the session has
  been listed again for the same peer (`LastAckIsHarmless`). Then it still does nothing if the content listed under
  that name receives over an In-Band Bytestream; if there is none of that name, or it lacks a half, the code reads
  through NULL (`AckIff`, `ReusedIdentifierReadsNull`).
- Offers that share a name mix up their halves (`StoredAsDescribedIff`, `ClashExample`). If two acceptable offers
  share a name the same handler goes on to read through NULL.
- The handler of a session-initiate frees the error of an offer that fails and never clears the variable: the next offer
  whose namespaces are registered, good or bad, makes it read and free that error again. An invalid creator sets the
  same variable although the content passes the check, so that two good offers are then enough (`ReusesErrorIff`,
  `FreedErrorExample`). The initiate is survived exactly without such an offer and without two acceptable ones of one
  name (`InitiateIsFatalIff`); it is survived and leaves exactly the acceptable offers behind if and only if no names
  clash and the error is not used again (`InitiateStores`).
- An accept of a content that was never given a transport reads through NULL (`AcceptReadsNullIff`), and one that leaves
  out the block size sets it to zero (`MissingSizeIsZero`).
- The terminate that follows an initiate without anything acceptable is sent to the `to` of the session, which for an
  incoming one is the party itself (`InitiateAnswers`).
- A terminate whose sender is spelled in another case removes the contents without stopping them
  (`TerminateStopsAllIff`, `OtherCaseExample`).
- The reply to a session-info is the wrong way round, because the status "handled" is zero (`InfoReplyIsInverted`).
- Choosing a transport with a list of forbidden ones and none left reads through NULL (`NullDereferenceIff`,
  `TriedAllExample`).
- A SOCKS5 address that arrives in pieces is taken for a header; the client consumes exactly the reply if and only if
  the address came in one read (`FinishedClient`, `SplitIff`, `FinishedIffWhole`, `SplitExample`). The same slip in
  the server is `AstrayIff` and `AstrayExample`.

## Model

| member | source | states |
|---|---|---|
| `Ibb.AcceptedBlockSize` | jingle-ibb/ibb.c:141-143 | an accept can only lower the block size |
| `Ibb.AcceptTakesTheSmaller` | jingle-ibb/ibb.c:141-143 | an accepted size that is smaller is taken as it is, any other leaves the size unchanged |
| `Ibb.OfferIsNeverRefused` | jingle-ibb/ibb.c:109-122 | no offer is refused for its block size, whatever was parsed: the value modulo 2^32 is stored, or 4096 exactly when that is larger |
| `Ibb.RefusedIffMissing` | jingle-ibb/ibb.c:98-125 | a transport element is refused exactly when its identifier or its block size is missing; sizes up to 4096 are stored as they are |
| `Ibb.NegativeOfferExamples` | jingle-ibb/ibb.c:117-122 | -1 becomes 4096 and -2^32 becomes 0 |
| `Ibb.JingleIBB.FromMessage` | jingle-ibb/ibb.c:91-126 | the object of an offer holds its identifier and that block size, or there is none |
| `Ibb.NegativeAcceptIsIgnored` | jingle-ibb/ibb.c:133-143 | a negative size in an accept leaves the block size unchanged |
| `Ibb.NegotiationAgrees` | jingle-ibb/ibb.c:91-148 | after offer, clamp and accept both sides cut blocks of the same size, the smaller of the offer and 4096 |
| `Ibb.JingleIBB.constructor` | jingle-ibb/ibb.c:205-213 | a new bytestream has block size 4096, an empty queue, sequence number 0 |
| `Ibb.JingleIBB.HandleAccept` | jingle-ibb/ibb.c:135-145 | lowers the block size of the object as the accept asks |
| `Ibb.JingleIBB.Append` | jingle-ibb/ibb.c:306-314 | both branches, room left or buffer grown, put the same bytes at the end of the queue; the allocation grows to what is needed and no further |
| `Ibb.JingleIBB.TakeBlock` | jingle-ibb/ibb.c:326-330 | hands out exactly the first block and keeps the rest in order, shifted inside the allocation |
| `Ibb.JingleIBB.TakeRest` | jingle-ibb/ibb.c:349-354 | hands out everything that is queued and gives the buffer back |
| `Sender.Answer` | jingle-ft/filetransfer.c:635-638 | a successful read brings any number from 1 to 2048 bytes of the file from the current position; end of file only at its end |
| `Sender.ReadRetry` | jingle-ft/filetransfer.c:635-639 | between one and ten attempts are made, and the bytes are those at the current position |
| `Sender.RetryIsFirst` | jingle-ft/filetransfer.c:635-639 | the first attempt that is not "try again" decides, or the last one allowed |
| `Pipeline.Initiator.ReadWithRetry` | jingle-ft/filetransfer.c:635-639 | the do-while loop gives the answer and the count of attempts of the specification and moves the file by what was read |
| `Pipeline.Initiator.FtSend` | jingle-ft/filetransfer.c:612-679 | one call has the effect of one pull: it reads until a block is out, the file ends or a read fails; it terminates for every file and every pattern of reads |
| `Pipeline.Initiator.EndOfFile` | jingle-ft/filetransfer.c:661-678 | flush, digest, state ENDING, content gone, and with it the terminate and the session |
| `Pipeline.Initiator.HandleAppData` | jingle/sessions.c:381-398 | data goes to the transport's send, the empty hand-over to its end |
| `Pipeline.Initiator.IbbSend` | jingle-ibb/ibb.c:301-337 | queues the bytes, then pulls again while there is less than a block, else sends exactly one block |
| `Pipeline.Initiator.IbbEnd` | jingle-ibb/ibb.c:344-355 | sends what is left as one last block, nothing if nothing is left, and frees the buffer |
| `Pipeline.Initiator.HandleTransNext` | jingle/jingle.c:482-494 | asks the application again if the session is still listed |
| `Pipeline.Initiator.SendInternal` | jingle-ibb/ibb.c:268-299 | one data stanza with the current number, which then goes up by one |
| `Pipeline.Initiator.HandleAccept` | jingle/action-handlers.c:241-250 | a listed content becomes active and its block size is lowered |
| `Pipeline.Initiator.Start` | jingle-ft/filetransfer.c:681-701 | the digest starts empty and the first pull is made |
| `Pipeline.Initiator.HandleDataAck` | jingle-ibb/ibb.c:240-266 | sends the next block if more than one is queued, else pulls; does nothing when the session has gone |
| `SenderProofs.PullInv` | jingle-ft/filetransfer.c:612-679 | one pull keeps the accounting of every byte, the counters, the bounds and the shape of the stream, and adds one full block, nothing after a failed read, or a last block and the trailer |
| `SenderProofs.StartInv` | jingle-ft/filetransfer.c:681-701 | the same for the start |
| `SenderProofs.AckInv` | jingle-ibb/ibb.c:240-266 | the same for an acknowledgement, with the comparison "more than a block" |
| `SenderProofs.AcceptInv` | jingle-ibb/ibb.c:128-148 | an accept at any time keeps the invariant of the sender |
| `TransferProofs.RunInv` | jingle-ibb/ibb.c:150-355 | in every state of every run: sender invariant, replies match what was taken, the receiver is what the delivered stanzas make of it, data stanzas are in step with acknowledgements |
| `SenderEvents.PullMeans` | jingle-ibb/ibb.c:306-334 | asking for more reads until a block is full, the file ends or a read fails, and not once more: what is then sent and queued is exactly what was queued and read, and a failed read and ten unavailable ones leave different states |
| `SenderEvents.EventMeans` | jingle-ibb/ibb.c:240-266 | in every run each step is an accept, a first pull, the next block, a pull or nothing, as the state and the step say |
| `SenderEvents.WhenAPullStops` | jingle-ibb/ibb.c:317-334 | an event that reads and ends the file adds a short block or none; one that reads and sends a block leaves less than 2048 bytes exactly unless one whole block was waiting and 2048 bytes came |
| `SenderEvents.AckReadsIff` | jingle-ibb/ibb.c:257-264 | an acknowledgement makes a listed sender read if and only if no more than one block waits |
| `SenderEvents.FullBlockWaits` | jingle-ibb/ibb.c:317-334 | a file of one full block goes out and waits for its acknowledgement before the trailer |
| `SenderEvents.OneBlockWaits` | jingle-ibb/ibb.c:257-264 | a run in which exactly one block waits and a whole read is left behind |
| `SenderEvents.StartedIff` | jingle/action-handlers.c:241-265 | a transfer has started exactly when its transport became ready after an accept |
| `TransferTheorems.Conservation` | jingle-ibb/ibb.c:256-264 | at every moment the file is bytes given to the receiver, bytes in flight, queued bytes and unread bytes, in this order; what is written is a prefix of the file while no write failed |
| `TransferTheorems.BufferBounds` | jingle-ibb/ibb.c:306-330 | queue within allocation within 4096 + 2048 bytes, and at most 2048 bytes kept between events unless a read failed |
| `TransferTheorems.EndToEnd` | jingle-ft/filetransfer.c:719-759 | after the terminate the receiver was given the whole file; ENDING exactly when no block was lost to a fault, and then its file is the sender's, all bytes are counted and the digest verifies (an empty file is never verified) |
| `TransferTheorems.StopAndWait` | jingle-ibb/ibb.c:286-291 | at most one data stanza is unacknowledged; exactly one while the transfer is started, not ended and no read has failed |
| `TransferTheorems.NothingAfterEnd` | jingle-ibb/ibb.c:246-250 | once the file has ended nothing that still arrives, in any order, changes the sender or makes it send |
| `TransferTheorems.BlocksHaveCurrentSize` | jingle-ibb/ibb.c:257-337 | under any accepts in mid-transfer an event sends at most one data stanza, of exactly the current block size, or a last one not longer; the file is read only with at most one block queued |
| `TransferProgress.PacketsAreTheCut` | jingle-ibb/ibb.c:317-352 | for a fixed block size the data stanzas are the file cut into blocks, numbered from 0, ceil(n / b) of them at the end |
| `TransferProgress.PacketIsSlice` | jingle-ibb/ibb.c:268-334 | for a fixed block size the i-th stanza carries number i and the i-th slice of the file |
| `TransferProgress.ReadSplitIndependence` | jingle-ft/filetransfer.c:635-659 | two finished transfers of one file put the same stanzas on the stream however the file was read and deliveries were scheduled |
| `TransferProgress.RunDoesNotStall` | jingle-ft/filetransfer.c:635-652 | when no read fails and none is unavailable ten times in a row, no run stalls |
| `TransferProgress.QuietMeansFinished` | jingle-ibb/ibb.c:240-266 | no deadlock: a started transfer with nothing in flight is over on both sides |
| `TransferEnding.StanzasAreBounded` | jingle-ibb/ibb.c:301-352 | while the current block size is at least one byte there have never been more stanzas than bytes plus two, whatever the sizes before |
| `TransferEnding.EveryScheduleEnds` | jingle/jingle.c:482-494 | over any continuation, accepts included, there are at most 2n + 4 deliveries, and a started transfer is over when there have been that many or nothing is left to deliver |
| `TransferEnding.StallIsPermanent` | jingle-ft/filetransfer.c:635-659 | after a read that failed nothing is sent any more, whatever happens |
| `TransferEnding.AnsweredTransferEnds` | jingle/jingle.c:482-494 | from every state that can end a peer that keeps answering brings the transfer to its end |
| `TransferEnding.NeverEnds` | jingle-ibb/ibb.c:128-148 | with block size 0 and something left to send, no continuation ends and none sends another byte |
| `TransferEnding.EndsIff` | jingle-ibb/ibb.c:317-337 | a started transfer can be brought to its end if and only if the block size is at least one, the sender has ended, or nothing is left to send |
| `TransferEnding.ZeroInMiddleIsStuck` | jingle-ibb/ibb.c:141-143 | a run that an accept with block size 0 stops in mid-transfer |
| `Bytes.ChunksOfFullBlocks` | jingle-ibb/ibb.c:322-337 | full blocks taken off the front are the first blocks of the cutting of the whole |
| `Bytes.ChunksJoin` | jingle-ibb/ibb.c:322-352 | the blocks of the cutting join to the file again |
| `Bytes.ChunkAt` | jingle-ibb/ibb.c:322-352 | the i-th block of the cutting is the i-th slice |
| `Bytes.BlocksForIsCeiling` | jingle-ibb/ibb.c:322-352 | the number of blocks of n bytes is ceil(n / b) |
| `Sink.HandleBlock` | jingle-ft/filetransfer.c:236-298 | the counter grows exactly by fully written blocks, and those are appended to the file |
| `Sink.BlockMeans` | jingle-ft/filetransfer.c:236-298 | for every fault: whether the counter grows, which part of the block the file gets, the state, and the digest that covers every block |
| `Sink.Accounting` | jingle-ft/filetransfer.c:246-297 | over any blocks and faults: the digest covers all, the counter is at most what is in the file and reaches what was delivered exactly when no block was lost; then the file holds all |
| `Sink.StopAfterAll` | jingle-ft/filetransfer.c:734-745 | if the announced number of bytes was delivered, ENDING exactly when every block was fully written, else ERROR |
| `Sink.DigestIff` | jingle-ft/filetransfer.c:703-716 | two digests of 32 characters match if and only if they agree at every index up to the case of a letter |
| `Sink.VerdictIff` | jingle-ft/filetransfer.c:734-758 | incomplete exactly when bytes are missing, unverified exactly when a digest is, corrupt exactly when the digests differ |
| `Sink.CorruptExample` | jingle-ft/filetransfer.c:712-749 | digests that differ in the first or only in the last character are corrupt, one in capital letters is verified |
| `Sink.IncomingFile.HandleData` | jingle-ft/filetransfer.c:236-298 | the method has the specified effect for every fault and returns true exactly for a fully written block |
| `Sink.IncomingFile.Stop` | jingle-ft/filetransfer.c:719-759 | state and verdict at the end of the session; corrupt exactly when all bytes are there and the digests differ |
| `Folding.FoldIff` | jingle/sessions.c:77 | two names fold alike if and only if they have one length and at every index the same character or a capital A to Z and its own small letter |
| `Sessions.Find` | jingle/sessions.c:69-82 | the first session with this identifier whose other party has this name up to the case of its letters: `from` if it came in, `to` if not |
| `Sessions.FindIsLookup` | jingle/sessions.c:69-88 | with distinct keys the search is a lookup in the map the list stands for |
| `Sessions.DeleteIsRemove` | jingle/sessions.c:287-299 | deleting removes exactly one key, and the search finds nothing afterwards |
| `Sessions.AppendIsUpdate` | jingle/sessions.c:41-53 | appending adds a key, and keys stay distinct exactly when it was not listed |
| `Sessions.FindByTransport` | jingle/sessions.c:212-226 | a content with this transport, none only if there is none |
| `EventMeaning.FoundIsFirst` | jingle/sessions.c:212-226 | what is found is the first content on the transport, in the first session that has one |
| `Offers.StoredAsDescribedIff` | jingle/sessions.c:90-165 | what the offers put into the session, one after the other, is exactly the acceptable ones, in order, pending, with their own halves, if and only if no offer that reaches its application half repeats the name of an earlier acceptable one |
| `Offers.ClashExample` | jingle/sessions.c:103-121 | two offers of one name leave a content with the wrong halves and one with none |
| `SharedError.ReusesErrorIff` | jingle/action-handlers.c:117-123 | a freed error is used again exactly when an offer with registered namespaces comes after one that could not be accepted, or after any if some creator is invalid |
| `SharedError.ErrorIs` | jingle/check.c:126-135 | over any offers the variable is clear, pending, freed or used again according to what was reported and what came after it |
| `HandlerTheorems.RegistryIsMap` | jingle/sessions.c:41-88 | over every run of events with fresh outgoing identifiers keys stay distinct and every search is a lookup |
| `HandlerTheorems.HandleMap` | jingle/action-handlers.c:41-287 | what each event that is survived does to the map of sessions: which key it adds, replaces or removes, and with what contents; keys stay distinct |
| `HandlerTheorems.NewOutgoingMap` | jingle/sessions.c:400-417 | an outgoing session keeps keys distinct exactly when its identifier is fresh for that peer |
| `HandlerTheorems.InitiateStores` | jingle/action-handlers.c:54-130 | a proper initiate is acknowledged, and it is survived and leaves exactly the acceptable offers behind, none without contents, if and only if no names clash and the freed error is not used again; any other is refused and changes nothing |
| `HandlerTheorems.TerminateStopsAllIff` | jingle/action-handlers.c:267-287 | after every run the session goes whatever the case of the name; all contents are stopped once, in order, if and only if the name is spelled as stored or there is nothing to stop |
| `HandlerTheorems.InfoReplyIsInverted` | jingle/action-handlers.c:193-209 | after every run a digest is stored and refused, any other payload is acknowledged and changes nothing |
| `HandlerTheorems.HashReachesSession` | jingle-ft/filetransfer.c:209-222 | a digest is stored for every content of the session and nowhere else |
| `HandlerTheorems.ContentLife` | jingle/action-handlers.c:241-287 | after any event a listed content is new and pending or the old one with the same halves, at most activated; nothing ended is listed |
| `HandlerTheorems.OriginOf` | jingle/sessions.c:90-165 | every listed content was listed before with the same halves, or the event brings it at a new address, with its application half |
| `HandlerTheorems.RunIsAlive` | jingle-ft/filetransfer.c:661-677 | no reachable state lists an ended content |
| `HandlerTheorems.RunIsWhole` | jingle/action-handlers.c:193-209 | over every run every listed content has its application half, which the handlers of session-info and session-terminate read without a test |
| `HandlerTheorems.OthersAreSurvived` | jingle/action-handlers.c:170-287 | a session-info, a terminate, a packet, the end of a file and a new session are survived after every run |
| `EventMeaning.InitiateAnswers` | jingle/action-handlers.c:54-168 | the answer to a session-initiate in every case, with its condition on the stanza and its error condition |
| `EventMeaning.InitiateLeaves` | jingle/action-handlers.c:102-130 | a session with one pending content for every acceptable offer, in order, each with its name and its own halves, or nothing |
| `EventMeaning.InitiateMakes` | jingle-ft/filetransfer.c:140-196 | the file of an acceptable offer is incoming and empty, with the offered size and digest, and its bytestream has the offered block size |
| `EventMeaning.AcceptMeans` | jingle/action-handlers.c:212-251 | the answer to an accept, and which contents are active afterwards: those that were and those that are named |
| `EventMeaning.AcceptSizes` | jingle-ibb/ibb.c:135-145 | the block size after an accept is the least of what it was and what is asked for |
| `EventMeaning.InfoMeans` | jingle/action-handlers.c:170-210 | after every run the answer to a session-info, and which files get a digest: those of the session, for the one payload that is understood |
| `EventMeaning.TerminateMeans` | jingle/action-handlers.c:267-287 | after every run what a terminate takes out of the list, and which files end, failed or complete |
| `EventMeaning.SentAllMeans` | jingle-ft/filetransfer.c:661-678 | the content goes, and the session and a terminate to the peer with the last one |
| `EventMeaning.PacketMeans` | jingle-ibb/ibb.c:173-187 | which packets are acknowledged, and the one file a packet changes |
| `EventMeaning.NewOutgoingMeans` | jingle/sessions.c:322-339 | what a session of this party's own looks like when it is listed |
| `NullReads.InitiateIsFatalIff` | jingle/action-handlers.c:102-150 | a proper initiate uses a freed error exactly under that condition, reads through NULL exactly when it does not and two acceptable offers have one name, and is survived exactly otherwise |
| `NullReads.AcceptReadsNullIff` | jingle/action-handlers.c:241-249 | an accept is not survived exactly when it passes the check and names a listed content without transport |
| `NullReads.MissingSizeIsZero` | jingle-ibb/ibb.c:141-143 | an accept without block size sets it to zero |
| `NullReads.RunIsSingle` | jingle-ft/filetransfer.c:451-475 | over every run a listed outgoing session has exactly one content |
| `NullReads.AckIff` | jingle-ibb/ibb.c:246-265 | an acknowledgement does nothing exactly when its session is not listed or lists a bytestream of that name that receives, is not survived exactly when that content is missing, lacks a half or is over SOCKS5, and makes the content send on otherwise |
| `NullReads.LastAckIsHarmless` | jingle-ibb/ibb.c:246-250 | over every run, the acknowledgement that arrives after an outgoing file has ended does nothing, unless its key has been listed again |
| `NullReads.ReusedIdentifierReadsNull` | jingle-ibb/ibb.c:252-254 | runs in which the key is listed again: with another content name the acknowledgement reads through NULL, with the same it does nothing |
| `Isolation.OneStep` | jingle/jingle.c:473-480 | every event that is survived does to what is known of a transfer what it does to a transfer that is alone, and the transfer stays in its place if and only if the event is survived and does not divert its bytestream |
| `Isolation.EachIsAlone` | jingle-ibb/ibb.c:173-187 | over every run of events of all kinds that is survived each transfer behaves like one that is alone |
| `Isolation.HomeIff` | jingle-ibb/ibb.c:124 | at the end of any run the transfer is in its place if and only if the party is still there and nothing has diverted the bytestream; it never comes back |
| `Isolation.OthersDoNotInterfere` | jingle-ibb/ibb.c:173-187 | over every run of events of all kinds that is survived a file and its session end up as if only the events of that session and bytestream had come, and those alone are survived too |
| `Isolation.StreamStep` | jingle-ibb/ibb.c:124 | the table of bytestreams still leads to the transport exactly when no proper session-initiate has named the bytestream |
| `Isolation.DivertedIff` | jingle-ibb/ibb.c:124 | after a foreign event that is survived a packet does to the file what it would have done before if and only if the event did not divert the bytestream; a diverted packet never reaches the file |
| `FailingRuns.DiversionExample` | jingle-ibb/ibb.c:124 | a run in which the block of one peer ends up in the file of another |
| `FailingRuns.OtherCaseExample` | jingle/action-handlers.c:278-284 | a run in which a session ends and its file is not stopped |
| `FailingRuns.FreedErrorExample` | jingle/action-handlers.c:117-123 | two initiates without clashing names that are not survived: a description that cannot be parsed before a good offer, and an invalid creator with two good offers |
| `IncomingFiles.FileIsOwnPackets` | jingle/jingle.c:473-480 | as long as the content is listed, and whatever else happens, its file is what its own packets make of it under any faults, with the digest announced last in its session |
| `IncomingFiles.FileIsConcatenation` | jingle-ibb/ibb.c:173-187 | without faults it is the concatenation of the payloads that carry its identifier |
| `IncomingFiles.LatePacket` | jingle-ibb/ibb.c:173-187 | after the session has been terminated, and whatever follows, a packet of its bytestream is acknowledged and changes nothing |
| `Ready.InitiateIsReady` | jingle/action-handlers.c:102-124 | without clashes and without use of a freed error the initiate is survived, and every accepted offer of a bytestream has an empty file of its own, of the offered size and digest, and is in its place if and only if no later offer of the same initiate names its bytestream |
| `Ready.RunIsBelow` | jingle/sessions.c:90-121 | in every reachable state the structs of listed contents and of the table were allocated before the next free address |
| `Responder.ReceiverIsContent` | jingle/jingle.c:473-480 | a content in a list of many does with each stanza, and answers, what the lone receiver does |
| `Responder.ContentFollows` | jingle/jingle.c:473-480 | with any other events mixed in that the party survives, the content is at every moment what the lone receiver is after the same stanzas |
| `Responder.FileArrives` | jingle-ft/filetransfer.c:719-759 | the end-to-end result for a content among any others, with their events mixed in, in a party that survives them |
| `Responder.OfferRepresents` | jingle/action-handlers.c:102-124 | an acceptable offer in a proper session-initiate without clashing names and without use of a freed error is a receiver that has been given nothing |
| `Responder.OfferedFileArrives` | jingle-ft/filetransfer.c:719-759 | from the session-initiate to the file: over any run that is survived, with any other events in between that do not take the bytestream over, the file of the offer is called good exactly when no block was lost, and then it is the sender's file |
| `OutgoingTheorems.NewSenderInPost` | jingle/sessions.c:400-417 | a session this party starts over an In-Band Bytestream begins a sender that has sent nothing |
| `OutgoingTheorems.OneMove` | jingle-ibb/ibb.c:240-266 | every move that is survived does to an outgoing transfer what it does to a sender that is alone |
| `OutgoingTheorems.EachSenderIsAlone` | jingle-ibb/ibb.c:240-337 | over every run of moves that is survived each outgoing transfer reads, queues and sends exactly what its own moves make it, whatever the other transfers do |
| `OutgoingTheorems.SenderFollows` | jingle-ibb/ibb.c:240-337 | with any other moves mixed in, an outgoing transfer is at every moment the sender of the transfer of one file |
| `OutgoingTheorems.SilentAfterTerminate` | jingle/action-handlers.c:267-287 | once the peer has ended the session in mid-transfer nothing more is read or sent for it, whatever follows; it counts as failed or complete exactly when the peer's name is spelled as stored |
| `Jingle.Jingle.FindBySid` | jingle/sessions.c:69-82 | the search loop finds what the specification says |
| `Jingle.Jingle.FindSessionContent` | jingle/sessions.c:167-178 | the same for contents by name |
| `Jingle.Jingle.ContentByTransport` | jingle/sessions.c:212-226 | the same for contents by transport, through two nested loops |
| `Jingle.Jingle.RemoveContent` | jingle/sessions.c:260-273 | removes the first content of that name and tells how many are left |
| `Jingle.Jingle.ChangeState` | jingle/sessions.c:275-282 | changes the state of the first content of that name only |
| `Jingle.Jingle.AddContent` | jingle/sessions.c:123-165 | adds one offer, both halves, or takes it off the list again, and hands its error on to the caller |
| `Jingle.Jingle.AddContents` | jingle/action-handlers.c:105-124 | the loop over the offers, up to where the freed error is used; otherwise everything every offer leaves behind |
| `Jingle.Jingle.HandleInitiate` | jingle/action-handlers.c:41-168 | the whole handler, checks in the order of the code, with all its effects; its state as far as it is survived |
| `Jingle.Jingle.HandleAccept` | jingle/action-handlers.c:212-251 | activates the named contents that exist, in order, and lowers the block sizes of their bytestreams; a content without transport is a NULL read |
| `Jingle.Jingle.AcceptContent` | jingle/action-handlers.c:241-250 | one content of a session-accept |
| `Jingle.Jingle.AppHandle` | jingle-ft/filetransfer.c:209-222 | stores a digest and says 0, else says 1 |
| `Jingle.Jingle.HandleSessionInfo` | jingle/action-handlers.c:170-210 | the loop over the contents with the status read as a truth value, and the application half read without a test |
| `Jingle.Jingle.HandleTerminate` | jingle/action-handlers.c:267-287 | stops and removes the contents, with the application half read without a test, deletes the session, acknowledges |
| `Jingle.Jingle.HandleSentAll` | jingle-ft/filetransfer.c:667-677 | marks the content as ended and removes it in the same step; the session goes with its last content |
| `Jingle.Jingle.HandleBlockAcked` | jingle-ibb/ibb.c:240-265 | looks the session up first, does nothing without it, then reads the content, its transport and the direction of its file |
| `Jingle.Jingle.HandlePacket` | jingle-ibb/ibb.c:150-190 | leaves unknown bytestreams alone, acknowledges the others, writes to the one file |
| `Register.Winner` | jingle/register.c:123-137 | the eligible transport of the highest priority, the earliest among equals |
| `Register.ChooseIff` | jingle/register.c:111-143 | the choice is the eligible transport that no eligible one beats, for the type of the application, and exactly that is added to the list if there is one |
| `Register.PriorityExample` | jingle/register.c:132-142 | of two transports the one with the higher priority is chosen, whichever was registered first |
| `Register.Registry.TransportForApp` | jingle/register.c:111-143 | the loop makes that choice and extends the forbidden list; with a list and no winner it reads through NULL |
| `Register.NullDereferenceIff` | jingle/register.c:139-142 | a selection reads through NULL exactly when there is a list to extend, the application is registered and no eligible transport is left |
| `Register.TriedAllExample` | jingle/register.c:139-142 | an application with one transport: the second selection reads through NULL |
| `Register.Registry.RegisterTransport` | jingle/register.c:74-89 | namespaces without the prefix of transports are ignored |
| `Register.Registry.UnregisterTransport` | jingle/register.c:189-196 | removes the first entry of that namespace, nothing if there is none |
| `Register.WinnerIsFirst` | jingle/register.c:123-142 | the winner is the head of the sorted transports, and forbidding it leaves the tail |
| `Register.SelectionsAreSorted` | jingle/register.c:111-143 | repeated selection, each given the list the one before it returned, follows the stable sort by descending priority, and then reads through NULL |
| `Register.SelectionsDescend` | jingle/register.c:123-137 | of two namespaces named in a row the first has the higher priority, or the same and was registered earlier |
| `Register.EachExactlyOnce` | jingle/register.c:111-143 | enough selections name every transport of the type, none twice, and no other |
| `Socks5.ConnectMsg` | jingle-s5b/socks5-proto.c:261-296 | the request begins 5, 1, 0, 3 and the length of the name, and fits 262 bytes |
| `Socks5.RequestLayout` | jingle-s5b/socks5-proto.c:261-296 | every byte of the request: the four above, the length, the name, the port in network order |
| `Socks5.ClientSetConnectMsg` | jingle-s5b/socks5-proto.c:262-296 | fills the buffer with exactly that request, or refuses a name of more than 255 bytes |
| `Socks5.ParseConnectReply` | jingle-s5b/socks5-proto.c:343-425 | a reply is accepted exactly when it begins 5, 0, 0 with an address type 1, 3 or 4, which is handed on; otherwise the error is the one for its version and reply field |
| `Socks5.ChoiceMeans` | jingle-s5b/socks5-proto.c:124-161 | each choice of the server has its own outcome |
| `Socks5.ParseConnectMsg` | jingle-s5b/socks5-proto.c:298-341 | a request is accepted exactly with version 5 and an address type 1, 3 or 4 |
| `Socks5.AuthLayout` | jingle-s5b/socks5-proto.c:196-236 | every byte of the credentials message |
| `Socks5.GreetingLayout` | jingle-s5b/socks5-proto.c:599-632 | every byte of the greeting, with and without credentials |
| `Socks5.CredentialsAreSent` | jingle-s5b/socks5-proto.c:788-839 | a client with credentials sends both when it is asked for them, or nothing when one is too long |
| `Socks5.CredentialsAreAccepted` | jingle-s5b/socks5-proto.c:238-250 | they are accepted exactly when the answer is 5, 0, and then the request goes out |
| `Socks5Callbacks.SetAuthMsg` | jingle-s5b/socks5-proto.c:196-236 | the credentials message, and 0 instead of an error when one is too long |
| `Socks5Callbacks.ConnectData.constructor` | jingle-s5b/socks5-proto.c:599-632 | the greeting offers no authentication only |
| `Socks5Callbacks.ConnectData.NegoMsgWriteCb` | jingle-s5b/socks5-proto.c:675-705 | after the last byte of the greeting two bytes are awaited, before that the rest is written |
| `Socks5Callbacks.ConnectData.NegoReplyReadCb` | jingle-s5b/socks5-proto.c:788-839 | the method chosen decides on failure, credentials or request |
| `Socks5Callbacks.ConnectData.SendConnect` | jingle-s5b/socks5-proto.c:936-956 | the request is set up, or the name is refused |
| `Socks5Callbacks.ConnectData.ConnectMsgWriteCb` | jingle-s5b/socks5-proto.c:958-988 | after the whole request four bytes are awaited |
| `Socks5Callbacks.ConnectData.ConnectReplyReadCb` | jingle-s5b/socks5-proto.c:1135-1184 | the header decides how much address follows |
| `Socks5Callbacks.ConnectData.ConnectReplyAddrReadCb` | jingle-s5b/socks5-proto.c:1209-1235 | a whole address completes, a part of one goes back to the header callback |
| `Socks5Client.FinishedClient` | jingle-s5b/socks5-proto.c:675-1235 | for every fragmentation a finished client has sent exactly 5, 1, 0 and then 5, 1, 0, 3, the name behind its length and a port of zero, and has consumed exactly 2 + 4 + 6 or 2 + 4 + 18 bytes if and only if the address came in one read, more otherwise |
| `Socks5Client.FailedClient` | jingle-s5b/socks5-proto.c:124-425 | a failed client has its error from the choice of the server, the length of the name or the header of the reply, and has read no further, unless an address came in pieces |
| `Socks5Client.SplitIff` | jingle-s5b/socks5-proto.c:1226-1234 | an address counts as split exactly when one read does not bring all of it |
| `Socks5Client.NoAuthentication` | jingle-s5b/socks5-proto.c:807-838 | the states of authentication are never reached |
| `Socks5Client.ClientFinishes` | jingle-s5b/socks5-proto.c:599-1235 | against a conforming server every fragmentation leads to the end unless the address is split |
| `Socks5Client.FinishedIffWhole` | jingle-s5b/socks5-proto.c:1209-1235 | a client that has had enough operations has finished after exactly the reply if and only if the address came in one read; unless the address begins with the byte 5 it has finished at all if and only if it did |
| `Socks5Client.SplitExample` | jingle-s5b/socks5-proto.c:1226-1234 | the same reply finishes in one piece and fails in two |
| `Socks5Client.LongHostnameIsRefused` | jingle-s5b/socks5-proto.c:274-282 | a name of more than 255 bytes never gets further than the greeting |
| `Socks5Server.ConnectRoundTrip` | jingle-s5b/socks5-proto.c:990-1105 | the three reads consume the client's request entirely and grant exactly the name it asks for |
| `Socks5Server.ServerFinishes` | jingle-s5b/socks5-proto.c:1007-1105 | after at most six reads, however the header is cut, unless the name is split |
| `Socks5Server.ServerRefuses` | jingle-s5b/socks5-proto.c:1007-1045 | a header of another version or with anything but a domain name is refused as soon as it is there, and nothing behind it is read |
| `Socks5Server.AstrayIff` | jingle-s5b/socks5-proto.c:1077-1104 | only a name that comes in pieces goes to the wrong callback |
| `Socks5Server.AstrayExample` | jingle-s5b/socks5-proto.c:1077-1104 | for every name, the request is granted in three whole reads and goes astray when the name comes without the port |

## Left out

- XML building and parsing, roster, hooks, logging, the `/jft` commands and module loading: input, output and user interface.
- The contents of MD5 and base64, and the library's lists and hash tables.
- Memory ownership apart from the error of a session-initiate: who frees sessions, contents and `session_content` records, and list walks that hold freed nodes.
- jingle-s5b/s5b.c: sockets, listeners, candidates; its candidate logic is unfinished and its send is empty.
- The SOCKS5 greeting and reply of the server and the client's branch for domain names after it has read the length: the code departs from RFC 1928 there; the model stops in a state of its own.
- Failing SOCKS5 operations and reads of zero bytes.
- Acknowledgement timeouts, `transport-info`, `retry`, and the answer of the user to an invitation.
- The width of `transmit` (64 bits) and of `dataleft` and `size_buf` (32 bits): the first cannot overflow for a file that exists, the others stay below 6145 by `BufferBounds`.
- What reaches the disk when a write fails is any prefix of the block; a later repair by the channel's own buffering is not modelled.
- Pipeline.Initiator.Start: a second report that the transport is ready is not modelled, because it would restart the digest in mid-file.
- Ready.InitiateIsReady: does not model an allocator that hands the address of a freed bytestream out again, because the model never uses an address twice.
- Isolation.DivertedIff: the same, for the packets of a third transfer after a bytestream was diverted.
- Jingle.Jingle.HandleInitiate: says nothing about the state a handler leaves when it ends in undefined behaviour; the same holds for the other handlers with a fatal effect.
- Sending sessions with more than one content: the repository never makes one.
