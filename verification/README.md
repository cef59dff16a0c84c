# CherryECAT, modelled and proved in Dafny

CherryECAT is an EtherCAT master. This project models the parts of it whose correctness is not visible in any single
function, and proves what they are for:

- **Bus topology and distributed clocks** (`BusTopology`, `DcJourney`, `DcDelay`, `DcAccuracy`, `DcCalculation`, `DcExamples`): the
  recursive routine that rebuilds the port tree from the flat list of slaves, and the delay calculation behind it. An ideal frame
  travels over an arbitrary tree with an arbitrary symmetric delay for every link; every slave with distributed clocks (DC) stamps
  it with a clock of its own, cut to 32 bits. For every tree it is proved what the code makes of the stamps: which delay every port
  and every slave gets, and which slaves get none. Where slaves without DC only pass the frame on, every delay between one DC slave
  and the next is right, and so is, as far as no time is spent in subtrees without DC, every arrival time relative to the reference
  clock, modulo 2^32.
- **Datagram queue and frames** (`DatagramQueue`, `DatagramRuns`, `DatagramProgress`, `DatagramEffects`, `FrameCodec`, `FrameBuffer`,
  `FrameTraffic`, `FrameReturns`, `WireContents`, `QueueMaster`, `LinkedList`, `QueueLinks`): queueing, sending, receiving, timing out.
  `QueueMaster.Master` has the methods with the loops of the source, proved against the functions of `DatagramQueue`. What these functions
  mean is said without them: `WireContents` gives every byte of every frame, `DatagramEffects` who is sent, completed or given up and when,
  `FrameReturns` what comes back; `DatagramRuns` and `DatagramProgress` have the theorems about all runs.
- **SDO transfers** (`Mailbox`, `CoeTransfer`, `CoeBytes`, `CoeSlave`): download and upload against any slave at all as methods over the
  datagram's buffer, the bytes of every request and the tests on every answer, and end to end with an SDO server that is written
  independently of the master.
- **Slave states** (`SlaveConfig`, `SlaveDevice`, `SlaveFollows`, `SlaveFails`): the state machine behind `ec_slave_config` against
  arbitrary answers; that a slave that follows is brought up, and how the call fails if it does not.
- **EEPROM** (`SiiImage`, `SiiEncoder`, `SiiStrings`, `SiiRoundTrip`): the two passes over the categories, the encoder script, and the
  string table, from the script's table through the image to the slave's strings.
- **Process data** (`PdoLayout`): regions, domains and accessors.
- **Who sends** (`Handoff`): the hand-over between the non-periodic thread and the cyclic handler, as interleaved steps.
- **Refinements** (`Memory`, `Timestamp`, `DcController`): word-wise copying, 64-bit cycle counts, the clock controller.

`Words`, `ByteBuffers` and `ErrorCodes` hold machine words, byte buffers and error codes. Arrays of C structs are arrays of records, pointers into them are
positions. Time, links and the answers of slaves are parameters. `dafny verify dfyconfig.toml` checks everything.

Where code and documentation or intention disagree, the model follows the code, and a lemma says when it matters:

- `ec_coe_download` announces in the first request of a segmented transfer only the size of the first chunk (src/ec_coe.c:144, called
  from 291). A server that counts bytes aborts the first segment: `DownloadToCountingServer`.
- A download with complete access sends subindex 0 but compares the answer with the subindex it was given (src/ec_coe.c:74, 107, 142
  and 175), so it succeeds only with subindex 0: `DownloadArrives`. An empty buffer arrives as four zero bytes, because the
  two-bit field cannot say 0: same lemma.
- `ec_slave_state_clear_ack_error` compares with the slave's requested state, not with the state it was called for (src/ec_slave.c:321).
  An acknowledged error can therefore end a configuration early with success: `AcknowledgedShortcut`. Success means that the whole path
  was taken exactly if no error was acknowledged while another state than the requested one had been asked for: `WholePathIff`.
- `ec_coe_upload` copies an expedited answer before it compares its size with the caller's buffer (src/ec_coe.c:415-418), so that up to
  four bytes are written behind a buffer of less than four bytes. Exactly when, and which bytes: `CoeUpload`, `UploadOverrunsIff`,
  `UploadOverruns`.
- A subtree in which no slave has DC takes time that the delay calculation cannot see (src/ec_slave.c:254-276): slaves visited after it
  get a transmission delay that is too small by the time for its links, out and back: `OrdinaryRightIff`, `SilentLeafCosts`. Of the
  branches behind a slave without DC only the first DC slave is found (src/ec_slave.c:204-215): half of the time for the other
  branches counts as its own, and the DC slaves there get no transmission delay at all: `FoundOnlyFirst`, `HubMisleads`.
- A datagram with more than 1486 bytes of data fits into no frame and blocks everything queued behind it on its device
  (src/ec_master.c:72-76, 107): `NothingLeftIffNoneTooBig`.
- `generate_eeprom` writes the string table before the names enter it (scripts/esi_parser.py:355-361), so that the names of the first
  image cannot be found: `NameResolves`, `TwoImages`.
- `ec_master_exit_idle` clears the flag before the thread suspends itself (src/ec_master.c:364-365). A start and a stop in between
  lose the resume, and nobody sends any more: `ResumeLostIff`, `LostResume`, `StuckForever`.
- The three-read cycle counter has one exception, `McycleIsTrueIff`; the phase error is congruent to the difference of the times only
  while the unsigned difference does not wrap, or for cycle times that divide 2^64, `PhaseErrorIs`.

## Model

| member | source | states |
|---|---|---|
| BusTopology.VisitPort | src/ec_slave.c:832-845 | what hangs behind one port is found and linked from the next position on; -1 means that the slaves run out while one more is owed |
| BusTopology.Round | src/ec_slave.c:831-848 | one round of the loop adds exactly the branch behind this port to the part of the tree found so far |
| BusTopology.CalcTopology | src/ec_slave.c:818-851 | 0: the slaves list a tree, exactly its links were written, the position ends at its last slave; -1: at every point the open ports ask for more slaves than there are; it terminates |
| BusTopology.ListedUnique | src/ec_slave.c:824-848 | a list of slaves is the preorder (ports 3, 1, 2) of at most one tree |
| BusTopology.NothingMissing | src/ec_slave.c:831-845 | a list that contains a tree does not run out of slaves, so that the two outcomes of the reconstruction exclude each other |
| BusTopology.RebuildListedTree | src/ec_slave.c:818-851 | the reconstruction inverts preorder flattening: for every tree it succeeds, rebuilds exactly this tree and ends at its last slave |
| DcJourney.PortOrdersInverse | src/ec_slave.c:136-166 | the orders of the two port tables are inverse to each other, also when unconnected ports are skipped |
| DcDelay.GetNextPort | src/ec_slave.c:152-166 | the loop over the table finds the next connected port in visiting order |
| DcDelay.GetPreviousPort | src/ec_slave.c:136-150 | the loop over the table finds the connected port before, in visiting order |
| DcDelay.CalcRttSum | src/ec_slave.c:172-188 | the sum of wrapped differences over the connected ports telescopes to the time between port 0 and the last connected port |
| DcJourney.HalfDifference | src/ec_slave.c:237-246 | two wrapped differences taken on clocks with arbitrary offsets give the true difference modulo 2^32 and then half of it |
| DcJourney.PortGeometry | src/ec_slave.c:221-249 | on any bus: how much longer the frame is away through a port than behind the first DC slave there: twice the links between them and those of the branches after it |
| DcJourney.SeenIsRightIff | src/ec_slave.c:237-249 | what 32 bits show of this is all of it exactly while it is below 2^31 |
| DcDelay.PortDelay | src/ec_slave.c:221-252 | on any bus, from two clocks that have nothing to do with each other: the value computed for a port is just that |
| DcDelay.FindNextDcSlave | src/ec_slave.c:194-219 | it finds the first DC slave of a subtree in frame order, and none exactly if there is none |
| DcDelay.MeasurePort | src/ec_slave.c:225-251 | one port: if a DC slave is behind it, this value is written to the port and to port 0 of the first one, and earlier results stay |
| DcDelay.CalcPortDelays | src/ec_slave.c:221-252 | all connected ports with DC slaves behind them carry their values, and what was measured before stays |
| DcDelay.VisitBranch | src/ec_slave.c:260-275 | one branch: exactly the slaves that the walk finds there get their delay, and the running delay advances by twice what is counted in the branch |
| DcDelay.CalcTransmissionDelays | src/ec_slave.c:254-276 | every slave of the subtree that the walk finds gets the sum of what is counted on the way to it, nobody else changes, and the running delay ends at the sum for the whole tour |
| DcJourney.PortTime | src/ec_slave.c:172-188 | when the frame comes back through a port it has been over every link up to there twice |
| DcJourney.ArrivesAfterWay | src/ec_slave.c:254-276 | when the ideal frame arrives: every link on the way to the slave counts once, every link of a branch that ended before counts twice |
| DcJourney.FoundOnlyFirst | src/ec_slave.c:194-219 | of a branch behind a DC slave the walk finds the first DC slave and what it finds behind that one, and nobody else |
| DcDelay.FindDcRefClock | src/ec_slave.c:853-867 | the reference clock is the first slave with DC, and none exactly if there is none |
| DcDelay.CalcDelays | src/ec_slave.c:881-895 | on any linked bus: all ports carry what is measured, the slaves found by the walk get their sums, and all others keep the transmission delay they had |
| DcCalculation.JourneyExists | src/ec_slave.c:172-276 | the ideal frame exists for every tree, all link delays and every start, so that the main result is not about nothing |
| DcCalculation.LaidLaws | src/ec_slave.c:818-851 | on the reconstructed links every slave of the ideal journey obeys the local laws that the delay calculation relies on |
| DcCalculation.CalcDc | src/ec_slave.c:897-910 | for every tree, all link delays and all clocks: the links are those of the tree, the reference is the first DC slave, every port and every slave carries the delay described above; on an ordinary bus these are the delays between one DC slave and the next, and the ideal frame's arrivals less the time in subtrees without DC |
| DcAccuracy.OrdinaryDelay | src/ec_slave.c:194-276 | where slaves without DC only pass the frame on or have no DC slaves behind them, every DC slave is found, what is measured is the delay from the previous one, and the transmission delay is the ideal one less twice the time for the links into subtrees without DC |
| DcAccuracy.RightIff | src/ec_slave.c:254-276 | on any bus a transmission delay is right exactly if what is counted and the real way differ by a multiple of 2^32 |
| DcAccuracy.OrdinaryRightIff | src/ec_slave.c:254-276 | on such a bus, where less than 2^32 is lost: exactly if every slave in a subtree without DC visited between the reference and this slave has a link without delay |
| DcAccuracy.AllDcPaths | src/ec_slave.c:221-276 | if all slaves have DC, the measured delay is that of the single link, and no time is lost |
| DcExamples.SilentLeafCosts | src/ec_slave.c:254-276 | a concrete bus with a leaf without DC in front of one with DC: 7 instead of 17 |
| DcExamples.HubMisleads | src/ec_slave.c:194-219 | a concrete bus with two DC slaves behind one without: 6 instead of 3 for the first, nothing instead of 8 for the second |
| FrameCodec.ImageReads | src/ec_master.c:89-104 | header, data and counter of a datagram are read back from its image at any position, with its follow flag |
| FrameCodec.ParsePacked | src/ec_master.c:178-235 | parsing packed datagrams finds exactly these, in order, and stops at the last |
| FrameCodec.ParseBuilt | src/ec_master.c:140-236 | parsing any built frame, whatever follows it in the buffer, finds exactly the packed datagrams with their data and counters, and no corruption |
| FrameCodec.FrameSize | src/ec_master.c:113-117 | frames have between 46 and 1500 bytes |
| FrameBuffer.FlagLast | src/ec_master.c:83-87 | setting the flag in the length word of the last datagram turns the closed sequence into one that goes on |
| FrameBuffer.PackedLast | src/ec_master.c:83-104 | a further datagram stands behind the others, all of which announce a successor |
| FrameBuffer.AppendDatagram | src/ec_master.c:83-104 | writing in place: the buffer then holds the packed sequence with one more datagram |
| FrameBuffer.CloseFrame | src/ec_master.c:112-117 | header and padding in place: what goes to the device is the frame of the packed datagrams |
| DatagramRuns.TimeoutKeeps | src/ec_master.c:250-260 | timing out keeps the invariant; whoever leaves is final and its waiter signalled once |
| DatagramRuns.LinkDownKeeps | src/ec_master.c:262-277 | the same for a device whose link is down |
| DatagramRuns.ReceiveKeeps | src/ec_master.c:140-236 | the same for any received bytes whatsoever |
| DatagramRuns.SendKeeps | src/ec_master.c:238-285 | the same for a whole call of ec_master_send |
| DatagramRuns.StepKeeps | src/ec_master.c:12-36 | every step of owners, sender and receiver keeps the invariant |
| DatagramRuns.RunKeeps | src/ec_master.c:12-285 | the invariant holds after every run |
| DatagramRuns.ClearKeeps | src/ec_datagram.c:78-98 | unlinking a datagram whatever its state keeps the invariant |
| DatagramRuns.RunsAreSafe | src/ec_master.c:630-665 | in every run from ec_master_init the queue holds nobody twice; a linked datagram is QUEUED or SENT, and one that is QUEUED or SENT is linked exactly if it was not cleared since it was queued; a raised semaphore never stands for EC_ERR_UNKNOWN |
| DatagramRuns.OneSignalPerRequest | src/ec_master.c:28-36 | a waited-for request is signalled exactly once over any run, when it leaves as RECEIVED, TIMED_OUT or ERROR |
| DatagramRuns.IndicesDiffer | src/ec_master.c:79 | while at most 255 further indices are issued, no two datagrams on their way share an index |
| DatagramRuns.IndexComesAgain | src/ec_master.c:79 | the bound is sharp: an index comes again after 256 and no fewer |
| DatagramRuns.LateReply | src/ec_master.c:195-204 | a reply to an earlier sending leaves alone every datagram that is not SENT, or whose present index was handed out at most 255 numbers later |
| FrameTraffic.GroupsAreGreedy | src/ec_master.c:51-137 | the split into frames is greedy: none is empty or too long, none could have taken the next datagram, and a remainder begins with one that is too big |
| FrameTraffic.SentUpToTooBig | src/ec_master.c:57-77 | exactly the waiting datagrams in front of the first one with more than 1486 bytes are sent, in queue order |
| FrameTraffic.FrameWellFormed | src/ec_master.c:72-117 | every frame has 46 to 1500 bytes and at most 124 datagrams, and no index occurs in it twice |
| FrameTraffic.NothingLeftIffNoneTooBig | src/ec_master.c:38-138 | after sending nothing is left QUEUED for the device if and only if no waiting datagram has more than 1486 bytes |
| FrameTraffic.FrameRoundTrip | src/ec_master.c:140-236 | a frame that comes back changed only in address, interrupt field, data and counters completes exactly its own datagrams: each is RECEIVED with the counter of its image and, unless its type is a writing one (0x02, 0x05, 0x08, 0x0B), the data of its image; its waiter is signalled, and nothing else about it changes |
| FrameTraffic.JustSent | src/ec_master.c:79-134 | a frame just sent cannot be confused with older datagrams on their way, if these are at most 255 indices old |
| FrameTraffic.SendThenReceive | src/ec_master.c:51-236 | sending a group and receiving its frame completes exactly this group, in the same words, and leaves all others alone |
| FrameReturns.FramesReturn | src/ec_master.c:140-236 | any number of frames on their way, received one after the other: each completes exactly its own datagrams, with the data and counters of its own images |
| FrameReturns.FlightsAreFrames | src/ec_master.c:51-137 | the bytes that go to the device are those of these frames |
| FrameReturns.CallReturns | src/ec_master.c:38-236 | after ec_master_send_datagrams its frames may come back in any order, all or some: each datagram is completed with the counter and (unless it only writes) the data of its own image, nobody else is touched, and when all are back exactly the waiting datagrams in front of the first that is too big have left |
| WireContents.FramesSay | src/ec_master.c:38-138 | every byte of every frame of a call: header, and for each datagram type, index, address, length with the flag exactly if another follows, interrupt field, data and a counter of zero, at the position that the datagrams in front of it leave; indices are consecutive over all frames; the rest is zero |
| WireContents.SentBecomes | src/ec_master.c:79-135 | what sending makes of a datagram: SENT under the index in its frame, at the time at which this frame was handed over, and nothing else changes |
| WireContents.CutFrame | src/ec_master.c:154-191 | a frame of which only a part arrives: with less than its header announces nothing is taken, with the announced number of bytes or one more all datagrams but the last, with all bytes everything |
| WireContents.CutFrameCounts | src/ec_master.c:154-191 | a cut frame counts as corrupted exactly once, and one with less than announced changes nothing else |
| DatagramEffects.TimeoutIff | src/ec_master.c:250-260 | a datagram on its way is given up after more than 50 000 000 ns and not before; otherwise nothing about it changes |
| DatagramEffects.StaysOnItsWay | src/ec_master.c:238-285 | a whole call of ec_master_send leaves a datagram alone that has been on its way for at most 50 ms, if its device has a link |
| DatagramEffects.LinkDownIff | src/ec_master.c:262-277 | without a link exactly what is linked for the device leaves, with ERROR |
| DatagramEffects.LosesItsDatagrams | src/ec_master.c:238-285 | a whole call of ec_master_send: everything linked for a device without a link leaves with ERROR, or TIMED_OUT if it was sent more than 50 ms ago |
| DatagramEffects.SentExactly | src/ec_master.c:51-135 | a queued datagram is sent exactly if it waits for this device and has at most 1486 bytes, as has everyone in front of it that waits for the device; all others are left as they are |
| DatagramEffects.MatchIs | src/ec_master.c:195-204 | the search finds the first linked datagram that is SENT and has the reply's index, type and size, and none exactly if there is none |
| DatagramEffects.ReplyCompletes | src/ec_master.c:195-231 | a reply changes only a datagram that it is for, and completes it if it is the only one |
| DatagramEffects.TimeoutsCount | src/ec_master.c:250-260 | every datagram that is given up is counted |
| DatagramEffects.RepliesCount | src/ec_master.c:195-231 | every reply completes one datagram or counts as unmatched |
| DatagramEffects.FilledAndQueued | src/ec_datagram.c:105-120 | a filled and queued datagram waits at the end of the queue with what was filled in |
| DatagramEffects.ResultIs | src/ec_master.c:645-662 | which result code stands for which end of a datagram, in both directions |
| DatagramProgress.SendMoves | src/ec_master.c:238-285 | one call of ec_master_send: a datagram that waited in front of any that is too big has been sent or has left, and nothing was sent later than the clock said |
| DatagramProgress.TwoSendsAnswer | src/ec_master.c:238-285 | two calls more than 50 ms apart, with any receiving in between: every datagram on its way or in front of any that is too big reaches a final state, and its waiter is signalled exactly once |
| QueueMaster.Master.constructor | src/ec_master.c:395-412 | initialisation gives a state from which all runs are safe |
| QueueMaster.Master.QueueDatagram | src/ec_master.c:12-26 | the datagram is QUEUED; the search loop appends it at the end only if it is not linked yet, and nothing else changes |
| QueueMaster.Master.QueueExtDatagram | src/ec_master.c:630-643 | the waiter is noted and the datagram queued at the end, unless it is linked already |
| QueueMaster.Master.TakeResult | src/ec_master.c:645-662 | once the semaphore is raised the datagram is final and out of the queue, and the result is 0, or -6 for a counter of zero, -3 for a time-out, -5 for an error |
| QueueMaster.Master.UnqueueDatagram | src/ec_master.c:28-36 | the datagram leaves the queue, and its waiter, if any, is signalled and forgotten |
| QueueMaster.Master.ClearDatagram | src/ec_datagram.c:93-98 | a linked datagram leaves the queue with the state it has, nobody else does, and the invariant is kept |
| QueueLinks.Append | src/ec_master.c:24 | on the links: the ring of nodes represents the queue with one more datagram at its end |
| QueueLinks.Unlink | src/ec_master.c:30 | on the links: the ring represents the queue without the datagram, whose node is alone then; also if it was not queued |
| QueueLinks.IsLinked | src/ec_datagram.c:95 | a node that is not alone belongs to a queued datagram, and the other way round |
| QueueLinks.DatagramUnqueue | src/ec_datagram.c:93-98 | the ring represents the queue without the datagram |
| QueueMaster.Master.TimeOutOverdue | src/ec_master.c:250-260 | the loop that removes entries as it goes does what `DatagramEffects.TimeoutIff` and `TimeoutsCount` say: exactly those sent more than 50 ms ago leave, each is counted |
| QueueMaster.Master.DropAll | src/ec_master.c:262-277 | exactly the datagrams of the device leave with ERROR (`DatagramEffects.LinkDownIff`) |
| QueueMaster.Master.FindDatagram | src/ec_master.c:195-204 | the first linked datagram that matches index, state, type and size, or none |
| QueueMaster.Master.ReceiveDatagrams | src/ec_master.c:140-236 | parsing and matching interleaved have the effect of parsing first and completing then, up to the point of corruption; what completing means is `FrameTraffic.FrameRoundTrip` and `DatagramEffects.ReplyCompletes` |
| QueueMaster.Master.AddToFrame | src/ec_master.c:72-104 | one datagram gets the next index, and its image goes into the frame; the bytes of the image are those of `WireContents.FramesSay` |
| QueueMaster.Master.FillFrame | src/ec_master.c:51-118 | one frame takes as many waiting datagrams of the device as fit; its bytes are the frame of these datagrams, spelled out in `WireContents.FramesSay` |
| QueueMaster.Master.MarkFrame | src/ec_master.c:126-135 | exactly the datagrams of the frame become SENT with the time of sending |
| QueueMaster.FrameByFrame | src/ec_master.c:50-137 | after one frame, sending goes on as if it began with the rest |
| QueueMaster.Master.SendDatagrams | src/ec_master.c:38-138 | the outer loop terminates; state and emitted bytes are those of the greedy split, each frame with its own reading of the clock; what the bytes say is `WireContents.FramesSay`, what becomes of the datagrams `WireContents.SentBecomes` |
| QueueMaster.Master.Send | src/ec_master.c:238-285 | time-out pass with a clock reading for each datagram, then for each device either its datagrams fail or its frames go out; who survives is `DatagramEffects.StaysOnItsWay`, who does not `LosesItsDatagrams` |
| LinkedList.AddTail | include/ec_list.h:268-275 | appends to the sequence that the ring represents, links consistent in both directions |
| LinkedList.Remove | include/ec_list.h:281-287 | deletes from the sequence; the removed node forms a ring by itself, also if it was alone |
| LinkedList.IsEmpty | include/ec_list.h:313-316 | true exactly for the empty sequence |
| LinkedList.Len | include/ec_list.h:322-333 | the length of the sequence |
| LinkedList.Reconnected | include/ec_list.h:281-287 | a ring whose links skip one node is the ring without it |
| LinkedList.VisitAndRemove | include/ec_list.h:445-449 | safe iteration that removes some current entries visits every original entry exactly once and leaves the others linked in order |
| Mailbox.FillSend | src/ec_mailbox.c:8-29 | the six header bytes in place |
| Mailbox.MailArrives | src/ec_mailbox.c:19-22 | reading a mailbox inverts filling it, whatever the rest of the mailbox contains |
| CoeTransfer.Exchange | src/ec_mailbox.c:84-132 | what the slave reads is the request, whatever else is in the buffer; the answer passes the tests on type, size and abort |
| CoeTransfer.DownloadExpedited | src/ec_coe.c:46-112 | for any slave: the request built in place is the expedited one, and the answer decides as specified |
| CoeTransfer.DownloadCommon | src/ec_coe.c:114-180 | for any slave: the same for the normal request |
| CoeTransfer.DownloadSegment | src/ec_coe.c:182-258 | for any slave: the same for a segment, with the padding of short ones and the toggle of the answer |
| CoeTransfer.CoeDownload | src/ec_coe.c:260-320 | for any slave: which requests are sent in which order; each fits into the mailbox, since this is the precondition of what is called |
| CoeTransfer.SegmentsAre | src/ec_coe.c:302-318 | every segment is as large as possible but the final one, which alone is marked as the last; the toggle alternates; none is empty |
| CoeTransfer.RequestsFillMailbox | src/ec_coe.c:284-306 | the requests of a segmented download fill the mailbox completely, and only the last one may be shorter |
| CoeTransfer.SegmentsJoin | src/ec_coe.c:302-318 | together the segments are the rest of the buffer |
| CoeTransfer.SendsTheSplit | src/ec_coe.c:302-318 | to any slave exactly these segments are sent, in order, until one is refused |
| CoeTransfer.CoeUpload | src/ec_coe.c:322-526 | for any slave with regular answers: result, value and size are those specified; behind the caller's buffer nothing changes, unless an expedited answer is longer than the buffer: then exactly its remaining bytes stand there |
| CoeTransfer.FetchSegments | src/ec_coe.c:446-517 | the loop over upload segments collects exactly the data of the answers behind what was there |
| CoeBytes.ExpeditedSays | src/ec_coe.c:66-83 | the bytes of an expedited request, with the two bits that say how many are unused |
| CoeBytes.NormalSays | src/ec_coe.c:134-151 | the bytes of a normal request: its size field and the data |
| CoeBytes.SegmentSays | src/ec_coe.c:202-227 | the bytes of a segment, with the three bits that say how many are unused and the bit that marks the last |
| CoeBytes.MailSays | src/ec_mailbox.c:8-29 | the mailbox around a request, byte by byte |
| CoeBytes.FirstRequest | src/ec_coe.c:260-300 | up to four bytes go expedited, up to what fits into the mailbox behind its headers in a normal request, and of more as many as fit go first |
| CoeBytes.MailboxTaken | src/ec_coe.c:84-105 | a mailbox is taken exactly if it carries CoE, is long enough and is no abort, and which error it is otherwise |
| CoeBytes.ConfirmationTaken | src/ec_coe.c:98-111 | the answer to a first request must be the confirmation for this index and subindex |
| CoeBytes.SegmentAnswerTaken | src/ec_coe.c:239-257 | the answer to a segment must be a confirmation with the segment's toggle |
| CoeBytes.UploadTaken | src/ec_coe.c:360-425 | which answers an upload takes, and the value of an expedited one |
| CoeSlave.SegmentServed | src/ec_coe.c:202-257 | the server takes a segment exactly if its toggle is the one it waits for; it reads the chunk back, padded or not |
| CoeSlave.SegmentsArrive | src/ec_coe.c:302-318 | all segments of any rest arrive, in one piece |
| CoeSlave.DownloadArrives | src/ec_coe.c:260-320 | a download succeeds exactly if it does not combine complete access with a non-zero subindex; then the object holds the buffer |
| CoeSlave.DownloadToCountingServer | src/ec_coe.c:144-291 | with a server that goes by the announced size, exactly the downloads that need no segments succeed |
| CoeSlave.FetchAll | src/ec_coe.c:446-517 | fetching any sequence of non-empty segments gives their concatenation, with alternating toggles |
| CoeSlave.UploadReturns | src/ec_coe.c:322-526 | an upload returns exactly the value of the object, however the server splits it, and succeeds exactly if the object exists and the value fits |
| CoeSlave.UploadOverrunsIff | src/ec_coe.c:402-420 | with a conforming server the buffer is overrun exactly if the object is longer than the buffer, has at most four bytes, and is sent expedited |
| CoeSlave.UploadOverruns | src/ec_coe.c:415-420 | a concrete object of four bytes that overruns a buffer of two |
| CoeSlave.DownloadThenUpload | src/ec_coe.c:260-526 | download, then upload, is the identity, also with complete access and subindex 0 |
| SlaveConfig.PollSeen | src/ec_slave.c:369-401 | waiting ends well only in the target state, or in the slave's requested state after an acknowledgement |
| SlaveConfig.StateChangeSeen | src/ec_slave.c:349-402 | exactly one state is requested, and what success means |
| SlaveConfig.ConfigureSafe | src/ec_slave.c:426-799 | against any answers: the requested states are a prefix of INIT, BOOT or INIT, PREOP, SAFEOP, OP; each is requested only after the one before was reported; success means the requested state is reached |
| SlaveConfig.WholePathIff | src/ec_slave.c:321-322 | a successful configuration has asked for the whole path, with as many exchanges in each state as belong to it, if and only if no error was acknowledged while another state than the requested one had been asked for last |
| SlaveConfig.StraysAre | src/ec_slave.c:278-307 | what that condition means for the events on the wire |
| SlaveConfig.AcknowledgedShortcut | src/ec_slave.c:321-322 | a concrete run: a slave in OP refuses INIT with an error, and after the acknowledgement success is reported although only INIT was requested |
| SlaveConfig.AckPollLimit | src/ec_slave.c:309-337 | with a working wire, giving up means that the limit has passed, and waiting on means that it has not |
| SlaveConfig.PollLimit | src/ec_slave.c:369-401 | the same for the wait after a request |
| SlaveFollows.FollowerIsBroughtUp | src/ec_slave.c:426-799 | a slave that follows (every exchange works, each requested state is reported within its limit, a small time difference is read within the allowed tries, FoE is there for BOOT) is brought up to any of the five states: the call returns 0 in the requested state, has asked for exactly the path there, and made all exchanges that belong to it |
| SlaveFollows.ElevenExchanges | src/ec_slave.c:426-799 | a concrete slave that is brought up to OP with eleven exchanges |
| SlaveFollows.WaitsAsLongAs | src/ec_slave.c:112-134 | the limits in nanoseconds for every pair of states: giving up means that more, waiting on that at most this time has passed |
| SlaveFails.ConfigureIsHonest | src/ec_slave.c:426-799 | against any answers the call stops at the first exchange that fails and returns its error; without such a failure it fails only by a time-out, missing FoE or a refusal |
| SlaveFails.RefusalIsReported | src/ec_slave.c:278-338 | a refused request: the error code is read and kept, the error acknowledged, and the refusal reported |
| SlaveFails.ClocksGiveUp | src/ec_slave.c:724-746 | after 15001 reads of too large a time difference the call gives up |
| SlaveFails.BootNeedsFoe | src/ec_slave.c:484-490 | without FoE the call ends in INIT with its own error |
| SlaveDevice.Slave.ClearAckError | src/ec_slave.c:278-338 | the method with its loop does what the function on scripts says |
| SlaveDevice.Slave.StateChange | src/ec_slave.c:349-402 | the same, with all exits |
| SlaveDevice.Slave.WaitForSync | src/ec_slave.c:724-746 | at most 15000 further reads of the time difference |
| SlaveDevice.Slave.Configure | src/ec_slave.c:426-799 | the order of requests and configuration exchanges, and every early exit; when it succeeds is `SlaveFollows.FollowerIsBroughtUp`, how it fails `SlaveFails.ConfigureIsHonest` |
| SiiImage.SiiRead | src/ec_sii.c:118-146 | words are read in pairs from wrapping 16-bit addresses; a length that is no multiple of 4 is refused |
| SiiImage.ScanSize | src/ec_slave.c:1212-1233 | the scan ends at the end marker of any well-formed list before word 4096, and how many words it asks for |
| SiiImage.ImageCoversMarker | src/ec_slave.c:1229-1233 | the image has a legal length, and it covers the end marker exactly under a condition on the word behind the marker, which 0 and 0xFFFF meet |
| SiiImage.ParseCategories | src/ec_slave.c:1281-1336 | the parse loop stays inside the image and visits exactly the categories |
| SiiImage.ReadCategories | src/ec_slave.c:1212-1336 | both passes agree: exactly the categories of the EEPROM are found |
| SiiEncoder.FramedIffEven | scripts/esi_parser.py:266-277 | a category header announces what follows exactly if the data have an even number of bytes |
| SiiEncoder.BytesComeBack | src/ec_slave.c:1292-1298 | bytes to words and back is the identity for even lengths |
| SiiEncoder.TailLaidOut | scripts/esi_parser.py:351-373 | what the encoder writes is a well-formed category list with a harmless word behind its end marker |
| SiiEncoder.ReadGenerated | src/ec_slave.c:1212-1336 | the reader finds exactly the categories of a generated image |
| SiiStrings.IndexStays | scripts/esi_parser.py:114-126 | an index other than 0 stands for its text whatever is added later; only the empty text gets 0 |
| SiiStrings.FetchStrings | src/ec_slave.c:62-106 | the loop takes as many strings as the category announces, each with its terminating zero |
| SiiStrings.StringsRoundTrip | src/ec_slave.c:1364-1375 | encoding, fetching and looking up gives the letters of the text and a zero for every index of the table, and nothing for any other |
| SiiStrings.TextComesBack | scripts/esi_parser.py:114-148 | the index handed out for a text leads back to its letters and a terminating zero through encoder and reader, whatever is entered before and after; a letter outside ASCII becomes a question mark |
| SiiStrings.SpellsOneText | scripts/esi_parser.py:140-142 | the same bytes cannot be the letters of two ASCII texts |
| SiiStrings.Encoder.AddString | scripts/esi_parser.py:114-126 | the search loop finds an existing text or appends it |
| SiiStrings.Encoder.CreateStrings | scripts/esi_parser.py:128-148 | the loop encodes the table, whose letters come back by `TextComesBack`; a byte outside 0..255 fails |
| SiiStrings.Encoder.Generate | scripts/esi_parser.py:355-361 | the table that is written is the one before the names entered it |
| SiiRoundTrip.ImageResolves | src/ec_slave.c:1281-1336 | among the categories of an image the slave finds exactly the strings of the table, and none if the table is empty and not written |
| SiiRoundTrip.ReadStrings | src/ec_slave.c:1281-1298 | the loop leaves the strings of the last strings category |
| SiiRoundTrip.ReadImage | src/ec_slave.c:1212-1375 | the bytes of a string table in an image, both passes, bytes and fetching in one: every index of the table leads to the letters of its text and a zero, and no other anywhere |
| SiiRoundTrip.NameResolves | scripts/esi_parser.py:355-361 | an index of the general category leads to the letters of its text exactly if the text was in the table before the image was generated, and else to nothing |
| SiiRoundTrip.GenerateAndRead | scripts/esi_parser.py:355-373 | one image of an encoder in any state, made of the bytes that it returns and read back: its table, and what the names in the general category lead to |
| SiiRoundTrip.TwoImages | scripts/esi_parser.py:355-373 | in the first image of a new encoder every name that is not empty has an index other than 0 that leads nowhere; in its second image all lead to the letters of their texts |
| PdoLayout.EntryWordRead | src/ec_master.c:519-522 | index, subindex and bit length are read back from a mapping word |
| PdoLayout.MapPdos | src/ec_master.c:502-526 | assignment, mapping words and bit length of one sync manager |
| PdoLayout.PlaceSlave | src/ec_master.c:492-553 | with distinct indices every sync manager keeps its own region, and all others stay untouched |
| PdoLayout.Layout | src/ec_master.c:487-561 | slaves are placed one behind the other; the total is the sum |
| PdoLayout.RegionsTile | src/ec_master.c:528-544 | every byte of the image lies in exactly one region, and no region reaches beyond the image |
| PdoLayout.EntriesFit | src/ec_master.c:502-530 | the mapped entries of a sync manager follow each other and fit into its region, which has less than eight bits to spare |
| PdoLayout.AccessorsExactIff | src/ec_master.c:683-713 | the output and input accessors point at exactly the bytes of the outputs and of the inputs if and only if no input with data stands in front of an output with data |
| Handoff.InvKept | src/ec_master.c:352-383 | every step of thread, caller and timer keeps the invariant |
| Handoff.SingleSender | src/ec_master.c:477-485 | in every interleaving: between the end of the wait loop and the resume the thread is past its last send, and the timer runs only in that time |
| Handoff.NeverBoth | src/ec_master.c:783-785 | in no reachable state could both send |
| Handoff.ResumeLostIff | src/ec_master.c:352-366 | the resume works exactly if the thread has finished suspending itself |
| Handoff.StuckForever | src/ec_master.c:477-485 | after a lost resume nobody ever sends again, and no later start gets past its wait loop |
| Handoff.LostResume | src/ec_master.c:362-366 | such a state is reachable |
| Handoff.EveryTickSends | src/ec_master.c:771-785 | while the master operates every tick of the timer sends once |
| Handoff.ThreadHandlerThread | src/ec_master.c:352-383 | a start and a stop with time in between hand sending over to the cyclic handler and back |
| Memory.MemCpy | src/ec_common.c:18-86 | for every length and all alignments of regions that do not overlap, exactly the target bytes change, into the source bytes |
| Memory.MemSet | src/ec_common.c:88-119 | exactly the target bytes change, into the low byte of the value |
| Memory.DwordToArray | src/ec_common.c:10-16 | four byte stores are one little-endian word, at any address |
| Memory.CopiedMore | src/ec_common.c:39-61 | copying some more bytes, read from memory that has already been partly written, continues the copy |
| Memory.BytesOfWord | src/ec_common.c:10-16 | the bytes of a word made of four bytes are these |
| Timestamp.Counter.Read | src/ec_timestamp.c:61-71 | the count is the true one exactly if less than 2^32 cycles have passed since the last read |
| Timestamp.ReadIsTrueIff | src/ec_timestamp.c:61-71 | a read gives the true count exactly if it comes less than 2^32 cycles after the one before |
| Timestamp.RunIsTrue | src/ec_timestamp.c:61-71 | over any run of reads that are close enough every count is true, so that the counts never go back |
| Timestamp.ReadMcycle | src/ec_timestamp.c:16-29 | in a call shorter than 2^32 cycles the count is one of the call's own instants exactly if the low word was not read twice at the same instant right before a carry |
| Timestamp.McycleIsTrueIff | src/ec_timestamp.c:16-29 | in a call shorter than 2^32 cycles the result is the true count at an instant of the call, with exactly one exception |
| DcController.Controller.Sync | src/ec_master.c:754-769 | the phase error is within half a cycle and congruent under the exact condition; the integral moves by at most one; the correction is bounded by both and works against a large error |
| DcController.CorrectionBound | src/ec_master.c:768 | the correction is at most cycle/200 + n/20 while the integral is at most n |
| DcController.CorrectionIs | src/ec_master.c:768 | one less for every whole 100 ns of the error, counted from zero in both directions, and one less for every whole 20 steps of the integral |
| DcController.IntegralCounts | src/ec_master.c:762-767 | the integral is the number of steps with a positive phase error less that with a negative one |
| DcController.PhaseErrorIs | src/ec_master.c:758-761 | the phase error is at most half a cycle, and congruent to reference minus shift exactly if the unsigned difference does not wrap or the cycle time divides 2^64 |
| DcController.IntegralBound | src/ec_master.c:762-767 | the integral never exceeds the number of steps |
| DcController.OffsetBound | src/ec_master.c:768 | the correction is at most cycle/200 + n/20 after n steps |
| DcController.OffsetOpposes | src/ec_master.c:768 | the correction works against an error of at least 100 ns, unless the integral points the other way |

## Left out

- DcCalculation.CalcDc: does not cover the datagrams that tell the slaves the reference clock, nor `system_time_offset`.
- DatagramQueue.Send: the readings of the clock are any numbers at all, one for each datagram that is checked and each frame that is sent, and differences are those of unsigned 64-bit numbers; the data window of a datagram is a sequence of exactly `data_size` bytes.
- QueueMaster.Master.ReceiveDatagrams: the receive buffer is larger than the received bytes by one datagram header, since the source reads a header before it compares lengths (src/ec_master.c:180-191).
- DatagramRuns.RunKeeps: owners fill only unlinked datagrams and leave a datagram alone while somebody waits for it; the freeing of its data by `ec_datagram_clear` is not modelled.
- QueueMaster.Master.UnqueueDatagram: the deletion is that from the sequence of positions; what happens on the links is `QueueLinks.Unlink`.
- LinkedList.VisitAndRemove: is about one list; `QueueLinks` ties its links to the queue of `QueueMaster`, which is a sequence of positions, and aliasing between several lists is not modelled. The single-linked list and reverse iteration are left out.
- CoeTransfer.CoeUpload: says nothing about normal answers that announce less than they carry or that are empty segments without end; these would write behind the buffer or keep the loop busy.
- Mailbox.FillSend: the polling for a full mailbox (src/ec_mailbox.c:48-82) is part of the answer: it either fails with a code or delivers a mailbox.
- SlaveConfig.ConfigureSafe: what the configuration exchanges carry is not modelled, only that they take place and may fail; the requested state does not change during a call.
- SiiImage.ReadCategories: malformed lists are excluded (the scan may not terminate on them), and so are errors of the EEPROM interface and the contents of the general and sync manager categories, whose layout in script and C code differ. `ec_sii_write` and the checksum are left out.
- SiiRoundTrip.ReadStrings: string categories that announce more strings than they contain are excluded; the source would read behind them.
- SiiStrings.Encoder.Generate: only the order in which strings are written and entered is modelled.
- PdoLayout.Layout: the buffers and datagrams of the domains are left out, as are images larger than a datagram.
- Handoff.SingleSender: the steps of a cyclic handler are not divided further, and calls of start and stop do not overlap.
- Timestamp.RunIsTrue: the conversion to nanoseconds and reads from several threads at once are left out.
- FoE and EoE, drivers, the operating system layer, statistics, logging, the shell, string tables of error codes and the generator for slave tables are left out: they are easy, finite, or outside of the core.
