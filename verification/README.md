# A verified model of a selective-reject file upload over UDP

The programs modelled here are a client, `rcopy`, that uploads a file to a server over UDP, with
selective-reject recovery: the client keeps a window of packets it has sent, the server a window of
packets that came too early. Both send through a library that drops packets or damages one byte.
This project models the three parts and proves what the programs are for: **the file on the
server is always a prefix of the client's file, in whole chunks, and the whole file once the client
has finished through ACK_EOF**, whatever the network drops, repeats, reorders or damages.

## How it is built

The two programs change global variables and ring buffers in place, and so do the classes here.
Each class is tied, method by method, to a simpler machine on values, and the
protocol is proved on the simpler machines.

| file | what it is |
|---|---|
| `Bytes.dfy` | bytes, network order, remainders |
| `Checksum.dfy` | `in_cksum`, its loop over a 32-bit accumulator, and the algebra of RFC 1071, sections 1 and 2(B) |
| `Packets.dfy` | the packet layout, the two builders and `recv_buf`, in place on byte arrays |
| `Channel.dfy` | the fault injector: `processEvents`, `sendto_Err`, the byte flip |
| `Receiver.dfy` | the receiver the server is meant to be: a map of early packets, no ring, no window indexes |
| `Ring.dfy` | the server's array of slots read as such a map |
| `ServerModel.dfy`, `Server.dfy` | the server as a state machine over the map receiver; the class that refines it |
| `ClientModel.dfy`, `Client.dfy` | the client as a state machine without a ring; the class that refines it |
| `Protocol.dfy` | client, network and server together, and the invariant of every run |
| `Theorems.dfy` | safety over whole runs: the file, the handshake, the window, aborts, silence |
| `Recovery.dfy` | recovery by timeout: exactly when it makes progress, and exactly when it ends the upload |
| `Runs.dfy` | particular runs: that uploads can succeed, and each way in which one goes wrong |
| `Wire.dfy` | the same run over bytes, checksums and the injector, for hosts of either byte order; it refines `Protocol` |

The chain of refinements is: the methods of `Server.ClientProcess` and `Client.Sender` make the steps of
`ServerModel` and `ClientModel` and emit real packets (`Turn`, `Iterate`); what they emit, sent through
the injector, is what `Wire` says reaches the network (`CarriedIsEmitted`); every run over bytes is a run
over messages (`RunIsSimulated`), because a damaged packet never passes its checksum; and every run
over messages keeps `Protocol.Inv`. `NothingIsUnsendable` closes the circle: in every run the
preconditions of the methods hold.

## What was found in the code

- *An RR is taken without a check that it is new* (`src/rcopy.c:215-229`). The client then sends one
  packet without looking at its window. In `RepeatedRROverrunsWindow` the RR for packet 2
  arrives twice and the client sends two packets more than its window, the last beyond both windows.
  Such runs exist if and only if the file has at least two chunks more than the window
  (`OverrunIsPossibleExactly`). `WindowKeptExactly` says which runs they are: a run stays within the
  window if and only if each RR taken leaves room for what was sent and for the packet sent next.
  Strictly increasing RRs do (`IncreasingRRsKeepWindow`), and in runs within the window the branch of
  `buffer_packet` for packets outside it is never taken (`NoPacketIsBeyondWindow`). The file is safe in
  every case: neither `FileIsAPrefix` nor `EndOfFileMeansWholeFile` needs the condition.
- *A client that has overrun its window may have overwritten its only copy of a packet the server still
  needs*, in the same configurations. From then on, whatever the network does, the client never sends that
  packet again, and until a copy sent earlier arrives the file does not grow and the upload does not end
  (`OverwrittenIsStuck`). If the earlier copies are lost, no number of loss-free turns helps
  (`OverwrittenNeverRecovers`, `RepeatedRREndsTheUpload`); a late copy can (`LateCopyRecovers`).
- *Recovery can fail within the window too* (`src/server.c:399-410`). After an expected packet that leaves
  a gap the server says nothing, which costs the client a timeout; with one resend left that ends the
  upload (`TimeoutsRunOut`). `ExchangeMakesProgressExactly` says when one exchange helps and
  `UploadEndsExactly` when an upload can still end: the condition, `CanRecover`, looks at the timeouts
  left, at the packet in the slot of `win_min`, at the packets the server holds, and at whether the
  server has asked already.
- *The client can abort* (`src/rcopy.c:309-332`, `src/libcpe464/PacketManager.cpp:263-267`): a resend
  from a slot that was never filled is an empty send, at which the library exits. `AbortsExactly` gives
  the two situations, and both happen. Some run aborts if and only if the file is shorter than the window
  (`AbortIsPossibleExactly`). The first is ordinary: every packet, fewer than a window, is
  acknowledged before the client sees the end of the file. So the run in which nothing at all is lost,
  and each packet is answered at once, succeeds if and only if the file has at least as many chunks as
  the window (`LosslessRunExactly`, `ShortFileCanAbort`). Other runs do upload short files
  (`UploadCanSucceedExactly`), but none is ever acknowledged for an empty one.
- *`send_eof_and_quit` stores the number of a SREJ in a variable of its own* (`src/rcopy.c:503`,
  `515`), while SEND_DATA_SREJ reads the one of the state loop, which may be 0; then the index is
  2^32 - 1. This is the second situation of `AbortsExactly`; `LateSREJAborts` is a run that ends so.
- *The SREJ branch of `send_RR_or_SREJ` is never taken* (`src/server.c:399-406`): the drain returns the
  number awaited, so after an expected packet the server sends an RR or nothing.
  `AdvanceAndAnswer` states this.
- *Any unexpected flag in the data phase ends the client* (`src/rcopy.c:247-250`), in the same state as
  success. The model keeps the two apart as `Done(true)`, through ACK_EOF, and `Done(false)`. An ordinary
  run shows it: the server acknowledges a setup packet, the acknowledgment arrives twice, and the client is
  at DONE before the server has a single chunk, in every configuration (`RepeatedAckEndsTheUpload`).
  `DoneWithoutAckExactly` says when, over whole runs: the client is at DONE without ACK_EOF if and only if
  eleven silences in a row went by, or its name was refused, or it took ACK_FILE_NAME, ACK_BUFFER_SIZE or
  ACK_WINDOW_SIZE in the data phase.
- *The first packet of a client is taken for its file name, whatever its flag*
  (`src/server.c:123-133`, `190`).

## Assumptions

- The buffer has 400 to 1400 bytes and the remote name at most 1000, as the client checks. The window
  has 1 to 255 packets: the client asks for one greater than 0, though its check lets 0 pass
  (`src/rcopy.c:618`), and the `uint8_t` loop counter of `src/server.c:456` allows no more than 255.
- The file is what `read` returns: a sequence of non-empty chunks of at most `bufSize` bytes, fewer
  than 2^31 - 256 of them. An empty file, no chunks, is allowed.
- One server child for each client, whose first packet starts it.
- A process is given silence (a timeout), or a datagram sent to it before, as often as the network
  likes. The network makes nothing up. The injector may strike any send.
- A step is what lies between two looks at the network: it takes at most one input and then sends at most
  one packet. `send_eof_and_quit`, which sends first and then looks, is two steps; `Iterate` says so
  through `ClientModel.Iteration`.
- Loss-free turns, as `Recovery` counts them, answer each packet at once, and the server's own ten-second
  timeout does not strike.

## Model

| member | source | states |
|---|---|---|
| `Wire.UploadIsFaithful` | src/rcopy.c:63-137 | End to end, over bytes: in every state of every run through the injector and a network that drops, repeats and reorders, with hosts of any byte order, the server's file is a whole-chunk prefix of the client's, and all of it once the client says end of file or finishes through ACK_EOF |
| `Wire.RunIsSimulated` | src/networks.c:124-161 | Every state of a run over bytes stands for a reachable state of the protocol over messages: damage only ever looks like a refused packet |
| `Wire.CarriedIsEmitted` | src/networks.c:177-238 | The packets a method of either class hands over, sent through the injector, are exactly the datagrams a run over bytes puts on the network |
| `Wire.NothingIsUnsendable` | src/networks.c:177-238 | After any run any process can move on any datagram: all messages fit a packet, every datagram can be read, and the server's window size and packet numbers are in range |
| `Theorems.FileIsAPrefix` | src/server.c:231-278 | In every reachable state the file is the first `cur_RRnum - 1` chunks of the client's, stale RRs or not, and the server never awaits a packet beyond the next one to be sent |
| `Theorems.EndOfFileMeansWholeFile` | src/rcopy.c:223-226 | Once the client is in SEND_EOF_AND_QUIT, END_OF_FILE or ACK_EOF is under way, or the client is done through ACK_EOF, the file is complete |
| `Protocol.StepKeepsInv` | src/rcopy.c:199-254 | Every step of either process keeps the invariant of client, server and all messages under way |
| `Theorems.ServerTakesADelivery` | src/server.c:231-278 | In every run the server's state is that of the map receiver after the packets it took, in that order, and the RRs and SREJs sent are exactly that receiver's answers |
| `Theorems.HandshakeAgreement` | src/rcopy.c:352-425 | When the client is ready to send, the server has accepted name, buffer size and window size, with equal values; it sets up its window at most once, exactly when it takes its first data packet |
| `Runs.HandshakeSucceeds` | src/server.c:478-599 | Without loss the handshake reaches the data phase with both ends in agreement |
| `Theorems.WindowKeptExactly` | src/rcopy.c:215-229 | A run keeps the client within its window if and only if every RR it takes leaves room for what was sent and what is sent next |
| `Runs.RepeatedRROverrunsWindow` | src/rcopy.c:215-229 | For every file of at least `win_size` + 2 chunks, a reachable state in which an RR taken twice has made the client send a packet beyond both windows and overwrite the one awaited |
| `Runs.OverrunIsPossibleExactly` | src/rcopy.c:215-229 | Some run leaves the window, and some run overwrites the packet awaited, if and only if the file has at least `win_size` + 2 chunks |
| `Runs.RepeatedRREndsTheUpload` | src/rcopy.c:215-229 | From that state, with the packets under way lost, no number of loss-free turns ends the upload |
| `Runs.LateCopyRecovers` | src/rcopy.c:291-298 | From that state, for a file of `win_size` + 2 chunks, a late copy of packet 2 lets loss-free turns end the upload |
| `Theorems.WindowsFit` | src/server.c:328-337 | In every reachable state, client `win_min` <= server `win_min` <= client `win_cur` and client `win_max` <= server `win_max`; every packet ever sent is below the server's window end while the client keeps to its own |
| `Theorems.NoPacketIsBeyondWindow` | src/server.c:334-337 | In runs whose RRs leave room, no packet the server takes, while the client is there or after, is beyond its window: the branch that should never execute does not |
| `Theorems.LogStaysInWindow` | src/server.c:356-364 | In such runs the packets the server took are a delivery that was never beyond the window |
| `Theorems.AllTakenMeansComplete` | src/server.c:366-439 | In such runs, once each packet was taken, in any order and number, the file is complete and the ring empty |
| `Theorems.IncreasingRRsKeepWindow` | src/rcopy.c:215-229 | Runs whose RRs strictly increase are runs whose RRs leave room |
| `Theorems.IncreasingRRsAreSafe` | src/rcopy.c:309-332 | In every state of a run in which each RR taken exceeds the one before, at most a window of packets is outstanding, no packet ever sent is beyond the server's window, and a resend of any outstanding packet sends that very packet |
| `Theorems.AbortsExactly` | src/libcpe464/PacketManager.cpp:263-267 | The client aborts if and only if it resends from an empty slot, which happens in exactly two situations |
| `Runs.AbortIsPossibleExactly` | src/libcpe464/PacketManager.cpp:263-267 | Some run aborts if and only if the file is shorter than the window |
| `Runs.ShortFileCanAbort` | src/rcopy.c:158-162 | The first: for every file shorter than the window some run aborts with the whole file on the server |
| `Runs.LateSREJAborts` | src/rcopy.c:499-515 | The second: a late SREJ in the end-of-file phase, in a run with the whole file on the server |
| `Runs.LosslessRunExactly` | src/rcopy.c:63-137 | The run from the start in which nothing is lost and each packet is answered at once ends with ACK_EOF if and only if the file has at least as many chunks as the window; otherwise it aborts |
| `Runs.SetupOutcomeExactly` | src/rcopy.c:352-425 | From any reachable state with the client still in its setup, whatever was lost so far, loss-free turns end with ACK_EOF if and only if a timeout is left, the server is alive, and the file has at least as many chunks as the window |
| `Runs.NoServerNoUpload` | src/server.c:616-635 | Once the server has ended, no number of loss-free turns ends an upload that was not finished |
| `Runs.UploadCanSucceedExactly` | src/rcopy.c:242-245 | For every configuration some run ends with ACK_EOF and the whole file if and only if the file has a chunk |
| `Theorems.SilenceEndsTheClient` | src/rcopy.c:63-137 | If nothing arrives any more the client's loop ends, from every reachable state, after exactly eleven timeouts in a row unless it aborts before, and not as a success |
| `Theorems.DoneWithoutAckExactly` | src/rcopy.c:247-250 | Over a run, the client is at DONE without ACK_EOF if and only if there were eleven silences in a row and it has moved since, or its name was refused, or it took an acknowledgment of the setup in the data phase; no damaged packet does it |
| `Theorems.TimeoutIsSilences` | src/rcopy.c:153-157 | Over a run the count of timeouts is the number of silences in a row since anything was heard, damaged or not, or the data phase began |
| `Theorems.AckedExactly` | src/rcopy.c:370-385 | Over a run, what the client takes for acknowledged is what it heard acknowledged while it waited |
| `Theorems.MissingIsSentAgain` | src/rcopy.c:414-422 | In any run, after a silence in the setup that is not the eleventh in a row, the client sends again the first of name, buffer size and window size not heard acknowledged |
| `Theorems.EndOfFileIsSentAgain` | src/rcopy.c:518-530 | In any run, after such a silence in the last phase, it sends END_OF_FILE again |
| `Theorems.ServerEndsExactly` | src/server.c:193-229 | Over a run, the server has ended if and only if its file could not be opened, there were eleven silences in a row in its setup or one in its data phase, or it took END_OF_FILE; no damaged packet ends it |
| `Theorems.StepEndsWithoutAckExactly` | src/rcopy.c:247-250 | The same for one step: no other message that can arrive there does it |
| `Runs.RepeatedAckEndsTheUpload` | src/rcopy.c:247-250 | For every configuration and each of the three acknowledgments, a reachable state at DONE, without loss, with the server's file empty |
| `Recovery.ExchangeMakesProgressExactly` | src/rcopy.c:139-166 | From any reachable state with the client's window closed and a live server, one loss-free timeout exchange raises client `win_min` plus server `cur_RRnum` if and only if a timeout and outstanding packets are left and the packet in the slot of `win_min` helps |
| `Recovery.ExchangeMakesProgress` | src/rcopy.c:139-166 | With `win_min` < `win_cur` <= `win_max` and a timeout left it always does, and leads to a reachable state |
| `Recovery.DataDelivered` | src/server.c:281-293 | Exactly what any data packet does to both ends: the server's number, its SREJ flag, its answer, and what the client makes of that |
| `Recovery.TurnsOccur` | src/rcopy.c:139-166 | Loss-free turns are made of steps of the protocol: they lead from reachable states to reachable states |
| `Recovery.HopefulFinishes` | src/rcopy.c:256-332 | From every hopeful state, with chunks still to read or not, loss-free turns end with ACK_EOF and the whole file, within a stated number of turns |
| `Recovery.HopelessForever` | src/rcopy.c:139-166 | From the others no number of turns does |
| `Recovery.UploadEndsExactly` | src/rcopy.c:139-166 | From any reachable state with the client's window closed and a live server, whether the file is read or not, the window overrun or not, and whatever the timeouts, loss-free turns end with ACK_EOF and the whole file if and only if `CanRecover` holds |
| `Theorems.OverwrittenIsStuck` | src/rcopy.c:309-332 | In every run and every continuation, lossy or not: once the packet awaited is overwritten in the client's ring, the client never sends it again, and while the server takes no earlier copy the file stays as it is and the upload does not end |
| `Recovery.OverwrittenNeverRecovers` | src/rcopy.c:291-298 | With nothing left under way, no number of loss-free turns changes the file or ends the upload |
| `Runs.TimeoutsRunOut` | src/server.c:399-410 | A reachable state of a client within its window, with packets outstanding and one resend left, from which no loss-free turns end the upload |
| `Receiver.DeliveryIsRepresented` | src/server.c:414-439 | After any deliveries the file is the longest complete prefix of the packets accepted and the map holds exactly the rest |
| `Receiver.OrderDoesNotMatter` | src/server.c:231-278 | Two deliveries with the same accepted packets, in any order and number, give the same file, the same packets held and the same number awaited |
| `Receiver.CompleteExactlyWhenAllAccepted` | src/server.c:366-439 | The transfer is complete if and only if each packet was accepted, and then nothing is held |
| `Receiver.EverythingArrives` | src/server.c:366-439 | Each packet at least once, none beyond the window: the file is complete and the ring empty |
| `Receiver.AnswersOfARun` | src/server.c:339-349 | Over a run every answer carries the number awaited, numbers never decrease, an RR means that all before is on file and nothing is held, and the buffering branch asks for no packet twice |
| `Receiver.DrainWritesTheMaximalRun` | src/server.c:414-439 | The flush writes exactly the maximal run of consecutive packets, in order, and frees exactly those |
| `Receiver.MaximalRunIsDrain` | src/server.c:414-439 | There is only one such run: whatever moves a maximal run of consecutive packets to the file does what the flush does |
| `Receiver.DrainEmptiesExactly` | src/server.c:383-392 | An expected packet leaves nothing held, and so is answered, if and only if the packets held follow it without a gap |
| `Receiver.TakeStaysInWindow` | src/server.c:231-278 | Packets held stay strictly above the one awaited and inside the window, and the number awaited never falls |
| `Ring.SlideWindow` | src/server.c:434-436 | Freeing the first slot and sliding the window removes the first packet from the map and moves no other |
| `Ring.StorePacket` | src/server.c:328-333 | Storing a packet of the window at its slot adds it to the map and overwrites no other packet |
| `Ring.EmptyExactlyWhenAllFree` | src/server.c:442-452 | The map is empty if and only if every slot has length -1 |
| `Server.ClientProcess.Turn` | src/server.c:102-175 | From one `select_call` to the next the process makes one step of the model and emits packets for exactly its replies, keeping the ring and window indexes in order |
| `Server.ClientProcess.ReceiveData` | src/server.c:231-278 | One packet: the window, read as a map, becomes what the map receiver makes of it, and the answers are the same; has_SREJ implies num_SREJ == cur_RRnum before and after |
| `Server.ClientProcess.HandleExpectedSREJPacket` | src/server.c:295-318 | The packet asked for: written, drained, answered, SREJs allowed again |
| `Server.ClientProcess.HandleExpectedPacketNumber` | src/server.c:366-386 | The packet awaited, only ever reached while no SREJ is pending |
| `Server.ClientProcess.HandleClientRecovery` | src/server.c:281-293 | A packet on file changes nothing and is answered RR or SREJ by whether packets are held |
| `Server.ClientProcess.BufferPacket` | src/server.c:320-351 | A later packet is kept if and only if it is inside the window, and one SREJ is sent unless one is pending |
| `Server.ClientProcess.IsInWindow` | src/server.c:356-364 | True if and only if the packet is the one awaited or less than a window beyond it, for every packet number |
| `Server.ClientProcess.CheckForAndWriteBufferedPackets` | src/server.c:414-439 | The flush loop terminates, is the map receiver's drain, leaves the first slot free and the indexes in step, and returns the updated `cur_RRnum` |
| `Server.ClientProcess.ArePacketsBuffered` | src/server.c:442-452 | The scan finds whether any packet is held |
| `Server.ClientProcess.SendRROrSREJ` | src/server.c:388-411 | All three branches, for any number at most `cur_RRnum` |
| `Server.ClientProcess.AdvanceAndAnswer` | src/server.c:383-385 | After the flush an RR is sent exactly when the ring is empty, and otherwise nothing |
| `Server.ClientProcess.ReadyForDataPacketSetup` | src/server.c:454-474 | An empty window of `win_size` free slots that stands for the empty receiver |
| `Server.ClientProcess.ReceiveRemoteFileName` | src/server.c:532-560 | Accepted, or refused when the file is not open and cannot be opened |
| `Server.ClientProcess.DispatchSetup` | src/server.c:478-527 | The setup switch, including the first data packet, which sets up the window |
| `Server.ClientProcess.OnSilence` | src/server.c:193-229 | The time-outs of both waiting states |
| `Client.Sender.Iterate` | src/rcopy.c:63-137 | One iteration of the state loop is one step of the model, two in SEND_EOF_AND_QUIT, and the packets sent are for exactly its messages |
| `Client.Sender.SendNextChunk` | src/rcopy.c:256-307 | Reads and sends the next chunk and saves the packet: the recorded packets grow by exactly that one, and the ring still holds the last `win_size` of them |
| `Client.Sender.SendDataFromWindow` | src/rcopy.c:309-332 | Sends, byte for byte, a packet sent before, the one the model names, or aborts on a slot never filled |
| `Client.Sender.ProcessIncomingData` | src/rcopy.c:199-254 | RR, SREJ, ACK_EOF, any other flag, and a refused packet |
| `Client.Sender.ReceiveWindowClosed` | src/rcopy.c:139-166 | An answer, a timeout with a resend from `win_min`, or the eleventh timeout |
| `Client.Sender.SendEof` | src/rcopy.c:499-532 | END_OF_FILE, then an answer, a retry, or the eleventh timeout |
| `Client.Sender.WaitForAcks` | src/rcopy.c:352-425 | All answers of the handshake, and what a timeout sends again |
| `Client.SaveKeepsRing` | src/rcopy.c:291-298 | Saving a packet at `win_cur % win_size` keeps every slot at the latest packet of that slot |
| `ClientModel.RingHoldsTheLastPackets` | src/rcopy.c:309-320 | The ring holds each of the last `win_size` packets in its own slot |
| `ClientModel.SlotHoldsTheLatest` | src/rcopy.c:291-298 | A slot holds the latest packet with its remainder, and is empty only if there is none |
| `ClientModel.RRKeepsWindowExactly` | src/rcopy.c:215-229 | Taking an RR keeps the client within its window if and only if it leaves room |
| `ClientModel.ResendSendsThePacketAskedFor` | src/rcopy.c:309-332 | A resend of an index sends exactly that packet if and only if it is one of the last `win_size` sent |
| `ClientModel.SilentClientGivesUp` | src/rcopy.c:139-197 | The run on silence ends after exactly the timeouts left to eleven, unless it aborts, and never as a success |
| `ClientModel.RefusedPacketIsIgnored` | src/rcopy.c:207-211 | A packet that fails its checksum sends nothing and changes only the count and the state: a waiting client stays, one in the data phase sends if it has room and waits if not |
| `ClientModel.RRMovesWindow` | src/rcopy.c:215-229 | An RR sets both ends of the window in 32-bit arithmetic, with no look at the old ones, and leads to end of file exactly when the file was read and it is the last one |
| `ClientModel.TimesOutExactly` | src/rcopy.c:151-163 | The client gives up on the server if and only if it counts a silence after ten others; the count rises, falls to zero or stays as it should |
| `ClientModel.SetupIsRetried` | src/rcopy.c:406-424 | After any other silence in the setup the next packet is the first one not acknowledged |
| `ClientModel.SetupGoesOn` | src/rcopy.c:370-403 | What a waiting client sends next on each acknowledgment and rejection; anything else it passes over |
| `ClientModel.WhatChanges` | src/rcopy.c:199-307 | Each field of the client has one cause to change: the window an RR, the packets sent a chunk, end of file an empty read, the SREJ number a SREJ, the flags their acknowledgments |
| `ServerModel.EndsExactly` | src/server.c:517-525 | A step ends the server if and only if it is one of four cases; an ended server does nothing |
| `ServerModel.RefusedPacketIsIgnored` | src/server.c:208 | A packet that fails its checksum leaves everything but the count of timeouts unchanged, and is not answered |
| `ServerModel.SilenceIsNotAnswered` | src/server.c:517-525 | A silence touches nothing but the count and the phase |
| `ServerModel.UnexpectedIsIgnored` | src/server.c:505-514 | What the phase does not expect, and data before name, buffer size and window size were all accepted, is passed over |
| `ServerModel.SetupIsAnswered` | src/server.c:532-599 | The first packet, and each setup packet every time it comes, is acknowledged and its value taken over, or the name refused |
| `ServerModel.NothingIsTakenBack` | src/server.c:102-175 | What was accepted stays accepted, the phases come in their order, only data touches the window |
| `Checksum.InCksum` | src/libcpe464/checksum.c:58-86 | The loop, the odd byte and the two folds, on a 32-bit accumulator that never overflows, compute the RFC's checksum |
| `Checksum.FoldIsResidue` | src/libcpe464/checksum.c:81-84 | Two folds give the nonzero residue modulo 65535 for every sum the accumulator can hold, and 0 only for 0 |
| `Checksum.VerifiedExactly` | src/networks.c:137-140 | A datagram is accepted if and only if its words add up to a positive multiple of 65535 |
| `Checksum.ByteOrderIndependence` | src/libcpe464/checksum.c:70-85 | The checksum over little-endian words is the byte swap of the one over big-endian words, odd lengths included |
| `Checksum.OneByteChangeIsDetected` | src/libcpe464/checksum.c:58-86 | Any change of one byte of an accepted datagram makes it refused |
| `Checksum.StoredChecksumVerifies` | src/networks.c:191-195 | The checksum over a zeroed field, stored there, makes the datagram accepted, for any content and length |
| `Checksum.StoredBytesAreTheSame` | src/networks.c:193-195 | Hosts of different byte order put the same two bytes on the wire, the big-endian checksum most significant byte first, and touch no other byte |
| `Checksum.VerifiedAsNumeral` | src/libcpe464/checksum.c:70-85 | A datagram is accepted, on a host of either byte order, if and only if, read as one number in base 256, it is a positive multiple of 65535 |
| `Bytes.MostSignificantFirst` | src/networks.c:187-188 | `htonl`: the first k bytes are the number without its last 4 - k digits in base 256 |
| `Packets.FrameLayout` | src/networks.c:182-195 | Every byte of a packet: sequence number and checksum most significant byte first, flag, body, pad |
| `Packets.NumberedLayout` | src/networks.c:211-229 | The same with the packet number in bytes 7 to 10, most significant first |
| `Packets.FlagNumbers` | src/networks.h:32-58 | Byte 6 tells the messages apart, by the numbers of the header |
| `Packets.SendBuf` | src/networks.c:177-204 | The whole packet laid out, its numbers most significant byte first, its checksum stored and right, the rest of the buffer untouched, its pad byte whatever was there |
| `Packets.SendBufWithPacketNum` | src/networks.c:206-238 | The same with the packet number in front of the data |
| `Packets.RecvBuf` | src/networks.c:124-161 | For a datagram of any length: CRC_ERROR if and only if what `recvfrom` reads fails its checksum, and then nothing is copied; otherwise length, flag, sequence number and bytes, a too short datagram's flag coming from the stack |
| `Packets.FrameRoundTrip` | src/networks.c:177-238 | Every message, framed by one host and received by another of any byte order, is read back, with its sequence number |
| `Packets.DataFields` | src/server.c:370-373 | From the bytes of any data packet the server's extraction gives its number and exactly its payload, without the pad byte |
| `Packets.DamagedFrameIsRefused` | src/networks.c:137-140 | A packet damaged in any one byte is refused by every host |
| `Channel.AnyFateIsHarmless` | src/libcpe464/PacketManager.cpp:281-308 | Whatever the injector does to a packet, a receiver gets that message or refuses what it gets |
| `Channel.FlipBits` | src/libcpe464/MsgEvents/errorFlipBits.cpp:9-27 | One byte is inverted, in place, and nothing else changes |
| `Channel.PacketManager.ProcessEvents` | src/libcpe464/PacketManager.cpp:123-182 | Constant events first, then at most one chance event: 2 exactly for a drop, 1 exactly for a flip, otherwise the buffer holds what goes on the wire; chance never strikes the first message |
| `Channel.PacketManager.RunMsgEvents` | src/libcpe464/PacketManager.cpp:90-121 | 2 if and only if some constant event drops the message |
| `Channel.RunErrorDrop` | src/libcpe464/MsgEvents/errorDrop.cpp:29-64 | The search of the list: 2 if and only if all messages are dropped or this one is listed |
| `Channel.PacketManager.OwnSettings` | src/libcpe464/SettingsManager.cpp:327-358 | With the programs' own settings a strike from the second message on drops the message or inverts one byte, by the event picked |
| `Channel.PacketManager.SendtoErr` | src/libcpe464/PacketManager.cpp:252-311 | Nothing goes out exactly when a constant event, or the chance event that struck, drops all or has the number on its list; otherwise the packet goes out, with the drawn byte inverted exactly when a flip struck; the caller's buffer is not touched, `len` is reported, an empty send exits |

## Left out

- Sockets, `select`, `fork`, host lookup and clocks: they are the inputs "datagram" and "silence".
- Several children for one client: when a repeated first packet makes the parent start a second child.
- Command lines, printing, and opening files: whether the server can open the file is an input; the content of the file is a byte sequence. Read, write and send errors do not occur.
- The lifetime of allocated memory: the tear-down functions free buffers, and `received_eof` builds its ACK_EOF in one of them; the model sends the packet from a live buffer.
- The sequence number as protocol state: no decision reads it. It is kept in the packet layout and as a field.
- Error rates and random numbers, which become parameters; the environment and the settings, from which the lists of events come; the counts that infoSeqNo keeps.
- `get_data_from_packet`, `send_Err` and the receive wrappers, which no modelled path calls.
- Server.ClientProcess.Turn: requires that what it reads has a meaning in C. A datagram under seven bytes that passes its checksum has its flag from uninitialised memory; a data packet under twelve bytes has a negative length to copy; a name may claim to go beyond the buffer. No builder makes such packets, and `Wire.NothingIsUnsendable` shows that none occurs. A first packet that is not a file name opens the same file as one that is.
- Client.Sender.Iterate: requires that a datagram that passes its checksum is long enough to have a flag.
