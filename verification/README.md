# A verified model of the EtherCAT master

The master brings a line of slaves into operation and exchanges process data and mailbox messages with them over
one Ethernet device. This project models its five cores and proves what they promise:

- **Process data** (`LogicalBits`, `ProcessImage`, `ImageLayout`, `LrwPass`, `ProcessData`, `Configuration`): FMMU areas and
  PDO entries are laid out over one logical image; a byte-shifting copy moves bit fields in and out of it. Followed
  from a write to one entry down to the memory of the slave after an LRW pass, and from that memory back to a read.
- **Datagram exchange** (`IndexSet`, `Commands`, `Datagrams`, `Frames`, `PduInterface`, `Sockets`,
  `SocketTags`, `SocketRuns`, `SocketInterface`, `GreedyPacking`, `Polling`,
  `FrameReturn`): the free-list allocator, packing sockets'
  PDUs into frames, building and parsing a frame, and handing replies back, over every run of polls on a link that may
  be busy, silent or noisy.
- **Distributed clocks** (`PortWalk`, `DcDelay`, `DcInit`, `DcTask`, `DcRuns`, `DcMeasurement`, `DcOffsets`, `DcBus`,
  `DcBusRun`): the walk that finds parents, the delays and offsets measured with wrapping timestamps, the phases up to
  the final broadcast check, and what the slaves' registers hold at the end.
- **Mailboxes** (`MailboxCodec`, `MailboxWrite`, `MailboxRead`, `MailboxBus`): the SDO printer and parser, and the two
  tasks that write and read a mailbox and recover from lost messages.
- **Initialisation** (`AlTransfer`, `AlBus`, `SiiRead`, `SlaveInit`, `SlaveInitTask`, `SlaveInitRuns`, `SlaveInitBus`,
  `SlaveInitBusRun`, `Network`, `NetworkInit`, `NetworkRuns`, `NetworkBus`, `NetworkBusRun`): AL state changes, the nested
  phase machine of one slave, the network of all, and what is then true of every slave on the line.

`Bytes` and `Tasks` hold what they share, `Bus` what the slaves do with a datagram. Check everything with `dafny verify dfyconfig.toml`.

## How it is modelled

Objects that the source updates in place are classes (`Master`, `IndexSet`, `FrameUtil`, `PduInterface`,
`SocketInterface`, `RecievedPorts`, `DcInitTask`, `MailboxWriteTask`, `MailboxReadTask`, `AlStateTransferTask`,
`SlaveInitTask`, `Network`, `NetworkInitTask`). Their methods are proved to take the steps of a state machine given
by functions (`OnReply`, `Emit`, `Asked`, `PollStep`, ...), and the theorems are about all runs of that machine: any
number of steps, any replies, any link behaviour, unless a hypothesis says otherwise.

The device, the clock and the slaves are the environment. A reply has the length of its request; its command, data,
working counter and time are arbitrary. Where a theorem speaks about slaves, replies come from them: `Bus.Pass` takes
the datagram that was sent, byte by byte, past the slaves of the line, which are functions from addresses to bytes. A
slave that hears it acts by command type and address: it returns its register (APRD, FPRD), ORs it in (BRD), stores
the data (APWR, FPWR, BWR), or answers or stores (ARMW); the working counter counts the slaves that acted. Any of them
may fail to hear it. What they do by themselves is said per theorem: a write to 0x0900 latches the arrival times of
that datagram modulo 2^32, the EEPROM interface fetches the words at the address in 0x0504 once a read operation is
written to 0x0502, volatile registers may change at any time. `LineAnswers` shows that such answers exist for every
datagram. An LRW copies through the FMMU registers.

`usize` and time are unbounded; `u8`, `u16`, `u32` are bounded types. Arithmetic that leaves its range, a failed
assertion and a failed `unwrap` end the program: they appear as an outcome (`Stopped`, `Faulted`, `OutOfRange`,
`None`, `false`) or as a precondition that the run theorems then discharge. Timeouts are computed as coded.

## Where the code departs from its intent

The code is modelled as written; each departure has a concrete witness and the exact condition under which the code
does what it is meant to do.

- Reading a bit field shifts by `7 - start_bit` (src/slave/slave.rs:493): right exactly for fields inside one byte,
  wrong for every longer one even at start bit 0 (`ReadIsExactIff`, `AlignedWordReadDiffers`); with the shift of the
  write side it is right for all (`ReadBack`).
- Writing a field that lies in one byte clears the bits above it, and a longer one ORs stray source bits in
  (src/slave/slave.rs:521-541): other bits survive exactly under `CleanTail` (`WriteIsExactIff`).
- An entry that starts mid-byte is addressed one byte too far (src/master/configure_for_op.rs:165): all entries are
  in place exactly when all are whole bytes (`EntriesInPlaceIff`, `NibbleEntryMisplaced`).
- FMMU registers never set the logical start bit (src/master/configure_for_op.rs:201-219): a register denotes its
  area exactly when the area starts on a byte (`RegisterIsAreaIff`, `MidByteRegister`), which the layout guarantees.
- PDUs are tagged with the rank among occupied slots, cut to eight bits, and delivered by slot index
  (src/interface/socket_if.rs:176-185, 209): tags are right exactly when no pending socket has a free slot, or 256
  slots, before it (`TagsRightIff`). Otherwise a reply can land in another socket (`HoleMisdelivers`), and with 257
  sockets the tag wraps (`TagWraps`). The run theorems assume right tags (`Tagged`) and no more.
- The remaining capacity is an unsigned subtraction (src/interface/pdu_if.rs:95). A packing pass underflows exactly
  when an occupied slot is crowded and every one before it has room (`PassFaultsIff`, `PassCanFault`). No run of polls
  ends the program exactly when every frame the sockets are packed into leaves 12 bytes (`NeverFaultsIff`,
  `TightFrameFaults`). The relations of `Sockets` stop the subtraction at zero; the class follows the code, so its
  polls are theirs unless the program ends.
- The stores meant to clear the working counter hit one byte too far (src/interface/pdu_if.rs:130-131), so a
  datagram that ends at the very end of the buffer is stored out of range. No set of sockets can cause that exactly
  when the buffer is longer than 1498 bytes (`NeverExactIff`, `FullSocketExact`).
- A PDU without data hides all later ones from the frame iterators (src/frame/frame_util.rs:157-173): a frame is read
  back whole exactly when no PDU is empty (`FrameRoundTrip`, `EmptyHidesNext`).
- The port walk backs up to `position - 1` (src/slave/network.rs:159-163): it is complete exactly on a line, behind
  which there may be slaves without links (`CompleteIffLine`, `StarIncomplete`). With no slave at all its first step is
  out of range.
- Clock offsets are computed from the low 32 bits of the local times at the arrival of the latch frame
  (src/task/dc_initilize.rs:257-258). They are the differences of these local times exactly when all agree in the upper
  bits (`TrueDifferencesIff`, `WrapSplits`), and contain the propagation delay (`BehindIs`, `SameClocksDiffer`).
  Offset and delay together bring two clocks to the same time, up to one unit per hop and one more, exactly when their
  local times agree in the upper bits (`ClocksAligned`, `ClocksAgreeIff`).
- The saved mailbox header is saved again on every poll (src/task/mailbox_write.rs:94-97): the message goes out
  unchanged in all runs exactly when the task does not wait for an empty mailbox (`AlwaysCarriesIff`,
  `FullPollSpoils`).
- A broadcast AL status is the OR of all slaves' states: sound exactly for targets with a one-bit code, not for
  Bootstrap = Init OR PreOp (`BroadcastSoundIff`, `MixedReadsAs`).
- The time limit of a state change is compared in nanoseconds but computed as a thousand times the milliseconds meant
  (src/task/al_state_transfer.rs:236-241): a slave that should reach Init within 5 s is given 5000 (`TimesOutIff`).
  The SII reader waits for 100 microseconds where 100 ms are meant (src/task/sii_read.rs:213-215, `WaitDecides`).
- Converting an AL status code that has no name ends the program (src/task/al_state_transfer.rs:232-233): exactly when
  a poll shows an error with such a code (`AlTransfer.StopsIff`, `UnknownCodeStops`).
- The process-data RAM region never meets a mailbox, but lies in the RAM exactly under a condition on the mailbox
  addresses (`PdoRegion`, `RegionOverRegisters`). The source does not check that the triple buffers fit it: otherwise
  they run into the first mailbox or past the RAM (`BuffersInRegionIff`, `BuffersOverMailbox`).
- If the first request to a slave comes back unanswered, network initialisation neither reports an error nor goes on
  (src/task/network_initilize.rs:153-156): exactly then (`StallsIff`, `OneSlaveStalls`), and for ever (`StallIsForever`).
- The SII reader's checks on its first and third replies are overwritten (src/task/sii_read.rs:168-200): whatever they
  find is lost (`ErrorsLost`, `ChecksumErrorIgnored`), and only a command error is ever reported (`SiiRead.OnReply`).

## Model

| member | source | states |
|---|---|---|
| LogicalBits.WriteFromBuffer | src/slave/slave.rs:500-549 | the in-place loop computes `Written` when the field is addressed and fits, and otherwise returns None and changes nothing |
| LogicalBits.WrittenBit | src/slave/slave.rs:511-542 | the value of every image bit after a write, for every start bit, length and source |
| LogicalBits.WriteSetsField | src/slave/slave.rs:500-549 | image bit start + k becomes source bit k for all k below the bit length, without conditions |
| LogicalBits.WriteIsExactIff | src/slave/slave.rs:500-549 | on all images no other bit changes, if and only if the source tail is clean and the field does not end mid-byte inside one byte |
| LogicalBits.OneByteWriteClearsNeighbour | src/slave/slave.rs:521-526 | a 4-bit field in one byte clears the upper four bits |
| LogicalBits.ReadToBuffer | src/slave/slave.rs:479-498 | the loop computes `ReadBytes` when the field is addressed and both buffers are long enough, and otherwise changes nothing |
| LogicalBits.ReadBit | src/slave/slave.rs:491-496 | the exact image bits each bit of the coded read depends on |
| LogicalBits.ReadIsExactIff | src/slave/slave.rs:493-494 | the coded read returns the field on all images if and only if the field lies in one byte |
| LogicalBits.ReadBack | src/slave/slave.rs:479-549 | reading a field just written gives its low bits: as coded within one byte, with the pairing shift for every field |
| LogicalBits.AlignedWordReadDiffers | src/slave/slave.rs:493-494 | 0x0100 at start bit 0 is read back as 0x0180 |
| ProcessImage.Master.SetLogicalAddressToFmmuConfig | src/master/configure_for_op.rs:91-131 | all active slots of all slaves get consecutive bit addresses from 0x1000; size is the ceiling of the bits; expected WKC; stops exactly above 1486 bytes |
| ProcessImage.HasDirectionAt | src/master/configure_for_op.rs:108-119 | a slave counts for reading or writing exactly when some active slot has that direction |
| ProcessImage.Master.SetLogicalAddressToPdoEntryConfig | src/master/configure_for_op.rs:133-178 | entries are placed behind their slot as coded, and it stops exactly when some slot's entries do not add up to its length |
| ProcessImage.FmmuForMapping | src/master/configure_for_op.rs:956-1001 | a mapping becomes a whole number of bytes, less than one byte more than its bits, and leaves room for three buffers |
| ImageLayout.AreasOrdered | src/master/configure_for_op.rs:93-120 | areas follow each other by slave, then slot; any two are disjoint |
| ImageLayout.AreasCover | src/master/configure_for_op.rs:93-125 | every bit of the image belongs to an area |
| ImageLayout.AreaInImage | src/master/configure_for_op.rs:93-125 | every area lies inside the image |
| ImageLayout.WkcFits | src/master/configure_for_op.rs:94-130 | the expected working counter fits 16 bits whenever the size check passes |
| ImageLayout.EntriesInPlaceIff | src/master/configure_for_op.rs:159-175 | every entry is addressed at its own place if and only if every entry is a whole number of bytes |
| ImageLayout.EntryPlacedAt | src/master/configure_for_op.rs:159-171 | one entry is addressed at the sum of the lengths before it if and only if that sum is on a byte |
| ImageLayout.NibbleEntryMisplaced | src/master/configure_for_op.rs:161-168 | the second of two 4-bit entries is addressed one byte past its area |
| LrwPass.BuildRegisters | src/master/configure_for_op.rs:191-219 | one register per addressed slot with a length, in slot order |
| LrwPass.RegisterIsAreaIff | src/master/configure_for_op.rs:201-219 | a register denotes exactly its area if and only if the area starts on a byte |
| LrwPass.MidByteRegister | src/master/configure_for_op.rs:201-219 | the register of an area from bit 4 on also takes the four bits before it |
| LrwPass.RegisterOfArea | src/master/configure_for_op.rs:182-237 | after the layout every area has a register denoting it in whole bytes, and nothing else has one |
| LrwPass.OneOwner | src/master/configure_for_op.rs:182-237 | no two registers of the network map the same logical byte |
| LrwPass.WkcOfPass | src/master/configure_for_op.rs:92-131 | the expected working counter equals the one an LRW pass over the written registers yields |
| LrwPass.InputsArrive | src/master/configure_for_op.rs:182-237 | after a pass the image holds in each input area the memory of the slave that owns it |
| LrwPass.OutputsArrive | src/master/configure_for_op.rs:182-237 | after a pass each slave's memory holds what the image had in its output area |
| ProcessData.EntriesDisjoint | src/master/configure_for_op.rs:133-178 | no two entries of any slaves share a bit |
| ProcessData.EntriesCover | src/master/configure_for_op.rs:133-178 | every bit of an area with mappings belongs to an entry |
| ProcessData.FieldLocates | src/master/configure_for_op.rs:91-178 | the two placement passes give every entry the field that denotes it |
| ProcessData.WriteIsolated | src/slave/slave.rs:500-549 | writing an entry sets its bits and no bit of any other entry |
| ProcessData.PdoWriteReachesSlave | src/master/mod.rs:338-366 | a written output entry lies in its slave's memory after the next pass, whatever the other slaves do |
| ProcessData.PdoReadsSlave | src/master/mod.rs:317-336 | after a pass a read of an input entry gives the slave's memory: exactly for one byte, and for longer entries with the top bit of each byte but the last mixed with the next bit |
| Configurations.MapOne | src/master/configure_for_op.rs:956-1010 | the FMMU of one mapping and the next free RAM address, three times its bytes further |
| Configurations.SetUpConfigures | src/master/configure_for_op.rs:72-89 | slots set up from the slaves of the table are fresh, whole bytes, outputs first; with placement and registers the network is configured |
| Configurations.BuffersInRegionIff | src/master/configure_for_op.rs:72-89 | the triple buffers follow each other from the start of the region and meet no mailbox while their bytes fit it; with mailboxes in the RAM they meet no mailbox and stay in the RAM if and only if they fit, and otherwise hit the first mailbox from below or pass the end of the RAM |
| Configurations.BuffersOverMailbox | src/master/configure_for_op.rs:72-89 | 200 bytes of outputs and 60 of inputs that run into the first mailbox |
| IndexSets.IndexSet.constructor | src/util.rs:39-50 | all slots free and linked in ascending order |
| IndexSets.IndexSet.AddItem | src/util.rs:52-65 | fails exactly when all slots are held; otherwise fills one free slot and changes no other; the marked arm is dead |
| IndexSets.IndexSet.RemoveItem | src/util.rs:67-86 | returns and frees what the slot holds; an unknown or free handle changes nothing; the marked arm is dead |
| IndexSets.IndexSet.GetItem | src/util.rs:88-93 | agrees with the partial map |
| IndexSets.IndexSet.UpdateItem | src/util.rs:95-100 | changes the item of a held slot and nothing else |
| IndexSets.FreeIsRest | src/util.rs:39-86 | free chain length plus held items is the capacity |
| IndexSets.ChainUnique | src/util.rs:39-86 | the links determine the free chain |
| IndexSets.AscendingIsPrefix | src/util.rs:39-65 | without removals the held slots are a prefix |
| IndexSets.TakeFirst | src/util.rs:52-65 | taking the first free slot leaves a complete chain of the others |
| IndexSets.GiveBack | src/util.rs:67-86 | returning a slot gives a complete chain that starts with it |
| Commands.ApAdpReaches | src/interface/pdu_if.rs:291-297 | the auto-increment address of position n is taken by position k if and only if k = n |
| Commands.NewLogicalReadWrite | src/interface/pdu_if.rs:52-60 | the two address halves give the logical address back |
| Commands.TypeRoundTrip | src/frame/ethercat.rs:171-220 | every command code is decoded to its command, and the codes are 0 to 14 in the order of the datagram header |
| Bus.ActsIsMeant | src/interface/pdu_if.rs:30-50 | a read and a write command are acted on by exactly the slaves meant: a position, a station address, or all |
| Bus.ReadReaches | src/interface/pdu_if.rs:30-39 | a read changes no slave; with one slave meant the data is that slave's register, with all the OR of their registers |
| Bus.WriteReaches | src/interface/pdu_if.rs:41-50 | a write is stored by exactly the slaves meant that hear it and comes back unchanged |
| Bus.MultipleWrite | src/task/dc_initilize.rs:178-186 | an ARMW takes the register of the slave addressed and stores it in all slaves behind it that hear it |
| Datagrams.DecodeAt | src/frame/ethercat.rs:60-97 | the accessors give back every field, the data and the working counter of a datagram laid out in a buffer |
| Datagrams.IndexesOfLaid | src/frame/frame_util.rs:155-173 | the iterator visits exactly the datagrams before the first one without data, in order |
| Frames.FrameUtil.constructor | src/frame/frame_util.rs:56-72 | an empty frame, whatever the buffer held |
| Frames.FrameUtil.AddCommand | src/frame/frame_util.rs:78-130 | appends the datagram with zero WKC, links the one before, adds to the length; fails exactly when it does not fit; data of 2048 bytes and more is stored with its length cut to 11 bits |
| Frames.FrameUtil.LastIndex | src/frame/frame_util.rs:45-48 | the last offset the iterator yields |
| Frames.FrameRoundTrip | src/frame/frame_util.rs:78-215 | iterating a frame gives back its datagrams with zero WKC, all of them if and only if none is empty; the header length is the sum of sizes modulo 2048 |
| Frames.FrameIsUnique | src/frame/frame_util.rs:78-130 | the bytes of a frame are determined by its datagrams |
| Frames.StatusFrame | src/frame/frame_util.rs:56-130 | the frame of one broadcast status read, byte by byte |
| Frames.EmptyHidesNext | src/frame/frame_util.rs:157-173 | of a frame with an empty and a one-byte datagram nothing is read back |
| PduInterfaces.PduInterface.AddPdu | src/interface/pdu_if.rs:98-136 | stages exactly the datagram behind the others; refuses exactly when it exceeds capacity or the maximum; leaves the buffer exactly when it ends at its end |
| PduInterfaces.PduInterface.TransmitOneFrame | src/interface/pdu_if.rs:147-192 | the frame sent holds exactly the staged datagrams before the first empty one, and the counters say so; a busy device changes nothing |
| PduInterfaces.PduInterface.ReceiveOneFrame | src/interface/pdu_if.rs:196-239 | a foreign or missing frame changes nothing; an accepted one replaces the staged datagrams by their replies |
| PduInterfaces.PduInterface.ConsumePdus | src/interface/pdu_if.rs:138-143 | hands out all datagrams in order and empties the buffer |
| FrameReturns.OwnFrameTakenIff | src/interface/pdu_if.rs:208-213 | a frame this master built is taken when it comes back if and only if a byte of its source address has changed |
| FrameReturns.OtherTypeRefused | src/interface/pdu_if.rs:211 | a frame of another EtherType is not taken |
| FrameReturns.ReturnedIsReply | src/interface/pdu_if.rs:214-224 | a frame of this master whose datagrams kept their shape answers exactly those it was built from |
| FrameReturns.ReturnLands | src/interface/pdu_if.rs:208-239 | in a poll such a frame with its source changed is taken in, and everything staged is answered |
| FrameReturns.EchoStays | src/interface/pdu_if.rs:208-213 | with its source unchanged it is not, and everything stays in flight |
| SocketTags.TagsRightIff | src/interface/socket_if.rs:176-209 | every pending PDU is tagged with its own slot if and only if no pending socket has a free slot, or 256 slots, before it |
| SocketTags.PrefixIsPacked | src/interface/socket_if.rs:150-152 | that holds for up to 256 slots of which none was removed |
| SocketTags.HoleMisdelivers | src/interface/socket_if.rs:176-209 | with slot 0 free a poll puts the reply of slot 2 into the idle socket of slot 1 and returns true |
| SocketTags.TagWraps | src/interface/socket_if.rs:185 | with 257 sockets the last PDU is tagged for the first slot |
| Sockets.PassSaturates | src/interface/socket_if.rs:174-195 | polling again while a frame is in flight stages nothing new |
| Sockets.EnqueueKeepsInv | src/interface/socket_if.rs:174-195 | packing keeps the run invariant: every initially pending socket is untouched, staged or answered, and staged PDUs carry their slot as tag |
| Sockets.DeliverKeepsInv | src/interface/socket_if.rs:198-223 | delivery keeps the invariant and hands each reply to the socket that asked |
| SocketRuns.PollKeepsInv | src/interface/socket_if.rs:167-172 | every poll keeps the invariant whatever the link does, and a poll that returns true has all answered |
| SocketRuns.RunKeepsInv | src/interface/socket_if.rs:167-223 | the invariant over runs of any length |
| SocketRuns.TrueMeansAnswered | src/interface/socket_if.rs:166-172 | when a poll returns true, every socket pending at the start holds the link's reply to its own PDU and no other socket changed |
| SocketRuns.EnqueueConserves | src/interface/socket_if.rs:174-195 | waiting plus staged PDUs stay the same in a packing pass |
| SocketRuns.DeliverConserves | src/interface/socket_if.rs:198-223 | delivery changes no waiting PDU |
| SocketRuns.RoundProgress | src/interface/socket_if.rs:167-223 | in every poll, on any link event, the PDUs waiting or on their way never grow, and shrink whenever a reply lands; with none left the poll returns true |
| SocketRuns.RunDrainsBy | src/interface/socket_if.rs:167-223 | over every run each reply that lands closes at least one of the PDUs pending at the start |
| SocketRuns.RunDrains | src/task/mod.rs:74-83 | in every run, once as many replies have landed as sockets were pending, every further poll returns true |
| SocketRuns.PassFaultsIff | src/interface/pdu_if.rs:94-96 | the coded subtraction underflows in a pass if and only if an occupied slot has more than capacity - 12 bytes before it and every occupied slot before that one has room |
| SocketRuns.PassSafe | src/interface/pdu_if.rs:94-96 | in particular not while everything pending fits with 12 bytes to spare |
| SocketRuns.RunKeepsBytes | src/interface/socket_if.rs:167-223 | the bytes waiting or on their way never grow over a run |
| SocketRuns.PassCanFault | src/interface/pdu_if.rs:94-96 | two sockets suffice to make it underflow |
| Sockets.ReceivedIsReply | src/interface/socket_if.rs:76-112 | the task reads back command, data and WKC of the reply delivered |
| SocketInterfaces.NeverExactIff | src/interface/pdu_if.rs:81-136 | no set of sockets makes the store leave the buffer if and only if the buffer is longer than 1498 bytes |
| SocketInterfaces.FullSocketExact | src/interface/pdu_if.rs:98-136 | in a shorter buffer one full socket does |
| SocketInterfaces.SocketInterface.AddSocket | src/interface/socket_if.rs:150-152 | fills a free slot or refuses exactly when there is none; without removals the sockets stay a prefix |
| SocketInterfaces.SocketInterface.EnqueuePdus | src/interface/socket_if.rs:174-195 | the coded loop takes exactly the pending PDUs up to the first socket without room, and `add_pdu` never refuses; the program ends exactly on an underflow or an exact fit |
| SocketInterfaces.SocketInterface.TransmitAndReceive | src/interface/socket_if.rs:198-223 | sends the staged datagrams and delivers replies by index |
| SocketInterfaces.SocketInterface.PollTxRx | src/interface/socket_if.rs:167-172 | one poll is a step of the state machine the run theorems are about, or the program ends exactly on such a fault |
| Polling.PollDetermined | src/interface/socket_if.rs:167-223 | a poll is determined by the sockets and the link |
| GreedyPacking.NeverFaultsIff | src/interface/socket_if.rs:167-223 | no run of polls over the sockets ends the program, whatever the link does, if and only if every frame they are packed into, one answered frame after the other, leaves 12 bytes of the capacity |
| GreedyPacking.RunNeverFaults | src/interface/pdu_if.rs:94-136 | with such frames no poll of any run underflows or stores out of range |
| GreedyPacking.TightFrameFaults | src/interface/pdu_if.rs:94-96 | any other frame ends the program in a run in which the frames before it come back and it is lost once |
| GreedyPacking.RunFollows | src/interface/socket_if.rs:174-223 | over every run the frames formed are those of the greedy packing, in order |
| GreedyPacking.FramesShrink | src/interface/socket_if.rs:174-195 | there are at most as many frames as pending sockets, so the condition can be checked beforehand |
| GreedyPacking.SpareIsRoomy | src/interface/pdu_if.rs:94-96 | the condition holds when everything pending fits one frame with 12 bytes to spare |
| GreedyPacking.TwoFramesRoomy | src/interface/pdu_if.rs:94-96 | it also holds for two PDUs that never share a frame |
| Polling.DoneMeans | src/interface/socket_if.rs:76-112 | after a poll that returns true every task reads back a reply the link gave to its own PDU |
| Polling.PollUntilDone | src/task/mod.rs:74-83 | for every set of sockets with right tags the polling loop ends with the first poll that returns true, with the first that ends the program, or when the link inputs run out; on true every task's reply is in its socket; the inputs do not run out once enough replies have landed; the program does not end if every frame leaves 12 bytes |
| PortWalk.RecievedPorts.Next | src/slave/network.rs:138-177 | one step of the walk |
| PortWalk.LineWalk | src/slave/network.rs:138-177 | on a line the walk ends inside the array and yields all 2n - 1 linked ports in frame order |
| PortWalk.LineItemsDistinct | src/slave/network.rs:138-177 | no port is yielded twice |
| PortWalk.CompleteIffLine | src/slave/network.rs:147-164 | the walk stays in range and yields every linked port if and only if there is a slave and the slaves form a line, followed by slaves without links if any |
| PortWalk.LinkedCompleteIff | src/slave/network.rs:147-164 | with a link on every slave: if and only if they form a line |
| PortWalk.StarIncomplete | src/slave/network.rs:159-163 | with two slaves behind a branching one the last is never seen |
| DcDelay.LoopTimeIsDifference | src/task/dc_initilize.rs:269-309 | both wrap branches are subtraction modulo 2^32 |
| DcDelay.LoopTimeExact | src/task/dc_initilize.rs:269-309 | wrapping and the clock base lose nothing of a loop time below 2^32 |
| DcDelay.LinkDelayExact | src/task/dc_initilize.rs:261-315 | half the difference of the parent's and the slave's loops is the link delay, for any clock bases |
| DcDelay.MeasurementKeepsBound | src/task/dc_initilize.rs:314-321 | averaging with truncation keeps the delay within one unit per hop of the truth; the first measurement is exact |
| DcTasks.DcInitTask.Start | src/task/dc_initilize.rs:57-102 | resets all slaves; parents and reference are those the walk gives |
| DcTasks.DcInitTask.NextPdu | src/task/dc_initilize.rs:121-193 | the request of each state, with the offset or delay of the slave it is for |
| DcTasks.DcInitTask.RecieveAndProcess | src/task/dc_initilize.rs:195-413 | takes the step of the state machine, or stops where the source does |
| DcRuns.StartOnLine | src/task/dc_initilize.rs:67-91 | on a line slave i > 0 has parent (i - 1, first port of i - 1), and the reference is the first DC slave |
| DcRuns.GoodStepProgress | src/task/dc_initilize.rs:205-412 | every good reply before the check is exactly one step of progress |
| DcRuns.CheckAfter | src/task/dc_initilize.rs:205-412 | CheckDelta is reached after exactly 2 + 8(n + 1) + 2m + 2000 good replies, and not before; without DC slaves Complete after 2 + 8(n + 1) |
| DcRuns.WritesInOrder | src/task/dc_initilize.rs:353-384 | offsets, then delays, are written to each DC slave once, in ascending order |
| DcRuns.DcOrder | src/task/dc_initilize.rs:353-384 | counting the DC slaves before one orders them as their positions do, so these writes ascend |
| DcRuns.ContextsFrozen | src/task/dc_initilize.rs:353-384 | the measured values do not change while they are written |
| DcRuns.WritesCarryMeasured | src/task/dc_initilize.rs:150-178 | each of these writes goes to the offset or delay register of its slave and carries what the measurement ended with for it |
| DcRuns.CompletesBy | src/task/dc_initilize.rs:395-412 | the task completes only by a passed check, or without DC slaves |
| DcRuns.RecheckAfter | src/task/dc_initilize.rs:395-412 | a check that fails is repeated after exactly 100 more drift datagrams |
| DcRuns.OtherReplyEnds | src/task/dc_initilize.rs:195-231 | every other reply ends the task: another command, or the working counter expected of the slaves the datagram is for and the one that came |
| DcMeasurement.RunKeepsMeasurement | src/task/dc_initilize.rs:225-350 | the measurement invariant over runs of any length on a line with arbitrary link delays and clock bases |
| DcMeasurement.DelayIsTrue | src/task/dc_initilize.rs:233-384 | the delay written to slave i behind reference f is the true delay less at most i - f; exact after round one |
| DcOffsets.OffsetIsDifference | src/task/dc_initilize.rs:327-342 | in every run with steady clocks the offset written to slave i is D, or D - 1 when D is odd, D being how far its latch is behind the latest one; D after round one |
| DcOffsets.RunKeepsOffsets | src/task/dc_initilize.rs:233-350 | the invariant behind it over runs of any length |
| DcOffsets.TrueDifferencesIff | src/task/dc_initilize.rs:257-258 | what is computed are the differences of the local times at the arrival of the latch frame, for all slaves, if and only if these agree in their upper words |
| DcOffsets.BehindIs | src/task/dc_initilize.rs:257-258 | such a difference is that of the clocks plus that of the arrival times |
| DcOffsets.SameClocksDiffer | src/task/dc_initilize.rs:257-258 | two equal clocks ten units of cable apart are found to be ten apart |
| DcOffsets.CorrectedClock | src/task/dc_initilize.rs:233-384 | over every steady run on a line, clock plus written offset plus written delay of each slave is the corrected reference time in the slave's own epoch, or up to 1 + i - f less |
| DcOffsets.ClocksAligned | src/task/dc_initilize.rs:233-384 | with equal upper words that is one time for all slaves, the latest local time minus the arrival at the reference |
| DcOffsets.ClocksAgreeIff | src/task/dc_initilize.rs:233-384 | two corrected clocks agree within 1 + j - f if and only if their local times had the same upper words |
| DcOffsets.SteadyWhenAlike | src/task/dc_initilize.rs:327-342 | clocks that run alike and never differ in the upper bits are steady |
| DcOffsets.WrapSplits | src/task/dc_initilize.rs:257-258 | two clocks one nanosecond apart across a wrap look almost 2^32 apart |
| DcOffsets.MeasuredValues | src/task/dc_initilize.rs:233-350 | what the measurement ends with for a DC slave: its offset and its delay, within their bounds |
| DcBus.ReadsOwnLatches | src/task/dc_initilize.rs:142-149 | a good reply to a latch read carries the latches of the slave being measured, and the read changes no slave |
| DcBusRuns.BusRunIsLineRun | src/task/dc_initilize.rs:135-149 | over every run on the line each measurement reads the latches of its own slave and round, so that the theorems on runs of the line hold |
| DcBusRuns.RunHolds | src/task/dc_initilize.rs:125-178 | over every run the offset and delay registers of each slave hold zero until they are written, and then the measured value |
| DcBusRuns.RegistersAlign | src/task/dc_initilize.rs:125-384 | after the writes the clock of each DC slave, corrected by its own registers, shows the time of the corrected reference clock in its epoch, or up to 1 + i - f less |
| DcBusRuns.RegistersAgreeIff | src/task/dc_initilize.rs:125-384 | two DC slaves agree by their registers within 1 + j - f if and only if their local times had the same upper words |
| DcBusRuns.OthersStayClear | src/task/dc_initilize.rs:125-134 | slaves without DC keep zeros in these registers |
| DcBus.DriftDistributes | src/task/dc_initilize.rs:178-186 | a drift datagram takes the system time of the reference slave and stores it in every other DC slave |
| DcBus.CompleteIsAligned | src/task/dc_initilize.rs:395-403 | when the task completes the delta register of every DC slave shows at most 50 ns, although one OR of all was read |
| DcMeasurement.NeverStops | src/task/dc_initilize.rs:195-413 | on a line no good reply stops the program |
| MailboxCodec.Parse | src/frame/ethercat.rs:237-379 | total on all byte strings; short headers are length errors; a message needs twelve bytes |
| MailboxCodec.SetMailbox | src/frame/ethercat.rs:383-449 | prints a request over any buffer, changing only the bits it owns |
| MailboxCodec.RoundTrip | src/frame/ethercat.rs:237-449 | parsing what was printed gives index, sub-index and data back if the data fits, and a length error otherwise |
| MailboxCodec.PrintedHeader | src/frame/ethercat.rs:383-449 | length is set; address, priority and count are untouched |
| MailboxCodec.CountCommutes | src/task/mod.rs:281-285 | setting the count before or after printing gives the same bytes |
| MailboxCodec.UploadResponse | src/frame/ethercat.rs:322-360 | an expedited or normal upload response gives its data |
| MailboxCodec.OtherMessages | src/frame/ethercat.rs:237-379 | where mailbox errors, aborts, emergencies and download confirmations have their parts, and when they are too short |
| MailboxCodec.CountsCycle | src/slave/slave.rs:113-121 | counts run through 1 to 7 for ever |
| MailboxCodec.SameCountIff | src/slave/slave.rs:113-121 | two exchanges carry the same count if and only if they are a multiple of seven apart |
| MailboxWrite.MailboxWriteTask.Start | src/task/mailbox_write.rs:55-64 | starts with a status check |
| MailboxWrite.MailboxWriteTask.NextPdu | src/task/mailbox_write.rs:83-114 | saves and clears, or restores, the front of the socket buffer in place, with the request of the state |
| MailboxWrite.MailboxWriteTask.RecieveAndProcess | src/task/mailbox_write.rs:116-158 | takes the step of the state machine, timeout included |
| MailboxWrite.RunHolds | src/task/mailbox_write.rs:83-151 | in every run the saved bytes are the current header and the rest of the buffer is the message |
| MailboxWrite.WriteCarries | src/task/mailbox_write.rs:88-113 | every write PDU, first or repeated, carries the current header and the rest of the message to the mailbox address |
| MailboxWrite.AlwaysCarriesIff | src/task/mailbox_write.rs:83-151 | in all runs every write carries exactly the message, if and only if wait_empty is false (or nothing is ever written) |
| MailboxWrite.FullPollSpoils | src/task/mailbox_write.rs:88-100 | a full and then an empty mailbox spoil the first byte |
| MailboxWrite.CompleteDelivers | src/task/mailbox_write.rs:143-150 | completion follows a write taken by one slave, and says what it carried |
| MailboxWrite.RequestsMatch | src/task/mailbox_write.rs:88-113 | every poll asks for status and activation of the SyncManager, every write goes to its start |
| MailboxWrite.WriteFollowsEmpty | src/task/mailbox_write.rs:124-150 | a write is sent only directly after a poll that showed the mailbox empty, or again after a write nobody took |
| MailboxWrite.PollDecides | src/task/mailbox_write.rs:124-142 | in time, an unanswered poll ends in NoSlaveReaction, a full mailbox not waited for in MailboxAlreadyExisted; one waited for is polled again; an empty one is written to |
| MailboxWrite.WriteDecides | src/task/mailbox_write.rs:143-150 | in time, a write is repeated until one slave takes it |
| MailboxWrite.OtherReplyEnds | src/task/mailbox_write.rs:116-158 | more than 100 ms after the first reply the task times out, and before that another command ends it |
| MailboxBus.StatusLeaves | src/task/mailbox_write.rs:88-100 | looking for an empty mailbox changes no slave |
| MailboxBus.MessageArrives | src/task/mailbox_write.rs:101-150 | at completion the mailbox of the slave meant holds the current header and the message, the message itself without waiting, and no other slave was written to |
| MailboxRead.MailboxReadTask.Start | src/task/mailbox_read.rs:57-66 | starts with a status check |
| MailboxRead.MailboxReadTask.NextPdu | src/task/mailbox_read.rs:85-128 | the request of each state in the socket buffer; a repeat request toggles the stored activation byte |
| MailboxRead.MailboxReadTask.RecieveAndProcess | src/task/mailbox_read.rs:130-187 | takes the step of the state machine, timeout included |
| MailboxRead.RequestsMatch | src/task/mailbox_read.rs:85-128 | in every run each state asks for its own register of the slave and SyncManager the task was started with |
| MailboxRead.ReadFollowsFull | src/task/mailbox_read.rs:140-159 | a read is always the request right after a status that showed a full mailbox |
| MailboxRead.CompleteIsRead | src/task/mailbox_read.rs:140-167 | Complete follows a WKC-1 read right after a full status, and the socket buffer holds what it returned |
| MailboxRead.RepeatFlipsOneBit | src/task/mailbox_read.rs:109-118 | a repeat request follows a lost read and differs from the last-read activation byte in bit 1 alone |
| MailboxRead.WaitsForAck | src/task/mailbox_read.rs:168-180 | until the acknowledge bit agrees the task only waits, or fails |
| MailboxRead.AckBeforeNext | src/task/mailbox_read.rs:160-180 | no second repeat, read or completion before the first repeat was acknowledged |
| MailboxRead.PollDecides | src/task/mailbox_read.rs:140-159 | in time, what each status poll leads to |
| MailboxRead.LostReadRepeats | src/task/mailbox_read.rs:160-167 | in time, a read nobody answered is always followed by a repeat request that turns over the repeat bit of the poll before; an answered one completes |
| MailboxRead.RepeatDecides | src/task/mailbox_read.rs:168-180 | in time, a repeat request leads to waiting for its acknowledgement, and that to a new poll, more waiting or an error |
| MailboxRead.OtherReplyEnds | src/task/mailbox_read.rs:130-187 | more than 2 s after the first reply the task times out, and before that another command ends it |
| MailboxBus.MessageFetched | src/task/mailbox_read.rs:96-167 | at completion the buffer holds the mailbox of the slave meant, and no slave was written to |
| AlTransfer.AlState.From | src/slave/slave.rs:327-343 | a code is decoded to the state with that code, all others to InvalidOrMixed |
| AlTransfer.AlStateTransferTask.NextPdu | src/task/al_state_transfer.rs:110-173 | the request bytes of each state at the front of the buffer |
| AlTransfer.AlStateTransferTask.RecieveAndProcess | src/task/al_state_transfer.rs:175-243 | takes the step of the state machine, the end of the program on an unknown code included |
| AlTransfer.RequestGuarded | src/task/al_state_transfer.rs:138-220 | the target is requested only after an error-free status and the SII-ownership write, both answered by all addressed slaves |
| AlTransfer.AcknowledgeGuarded | src/task/al_state_transfer.rs:120-219 | an error is acknowledged only when shown, with the state shown and the acknowledge bit, which the next request takes back |
| AlTransfer.RequestedOnce | src/task/al_state_transfer.rs:221-243 | the target is requested at most once in a run |
| AlTransfer.CompleteIsTarget | src/task/al_state_transfer.rs:202-243 | completion follows a status of all addressed slaves that equals the target, which is what is reported |
| AlTransfer.StopsIff | src/task/al_state_transfer.rs:225-237 | the program ends if and only if a poll shows an error status other than the target whose code has no name |
| AlTransfer.UnknownCodeStops | src/task/al_state_transfer.rs:231-233 | a slave that refuses Init with code 0x0016 does that |
| AlTransfer.BroadcastSoundIff | src/slave/slave.rs:317-342 | the OR of all states equals the target only if every slave is there: true if and only if the target is Init, PreOp, SafeOp or Op |
| AlTransfer.TimesOutIff | src/task/al_state_transfer.rs:152-241 | a poll that shows neither the target nor an error times out if and only if more than the limit for the state shown before the request and the target has passed since the request was answered |
| AlTransfer.RefusalReported | src/task/al_state_transfer.rs:227-235 | a refused state change ends the task with the state and the code the slave shows |
| AlTransfer.OtherReplyEnds | src/task/al_state_transfer.rs:176-198 | a working counter other than the number of slaves addressed, or another command, ends the task with that error |
| AlBus.StatusReadLeaves | src/task/al_state_transfer.rs:115-119 | a status read changes no slave |
| AlBus.WriteStoredBy | src/task/al_state_transfer.rs:120-162 | every write of a run is stored by exactly the addressed slaves that hear it, in its own register |
| AlBus.RequestReaches | src/task/al_state_transfer.rs:149-162 | after the request the AL control register of each of these asks for the target, and no other slave is touched |
| AlBus.SingleComplete | src/task/al_state_transfer.rs:202-243 | a completed transfer of one slave has that slave in the target state |
| AlBus.BroadcastComplete | src/task/al_state_transfer.rs:175-243 | a completed broadcast over the counted slaves to Init, PreOp, SafeOp or Op has every one of them in that state, the reply being the OR their registers give |
| SiiRead.OnReply | src/task/sii_read.rs:150-231 | of the reader's own errors only a command error is ever reported |
| SiiRead.ErrorsLost | src/task/sii_read.rs:165-200 | exactly which register bits make the two overwritten checks find an error, after which the reader goes on |
| SiiRead.ChecksumErrorIgnored | src/task/sii_read.rs:165-190 | a checksum error in the first reply is followed by the request for ownership |
| SiiRead.WaitDecides | src/task/sii_read.rs:205-218 | while the interface works the reader asks again, up to 100000 units after the read operation was answered |
| SlaveInit.PdoRegion | src/task/slave_initialize.rs:693-724 | the process-data region meets no mailbox, and lies in the RAM if and only if the mailboxes start before its end and end after its start |
| SlaveInit.RegionOverRegisters | src/task/slave_initialize.rs:703-722 | mailboxes below the RAM put the region over registers |
| SlaveInit.RegionIsLargest | src/task/slave_initialize.rs:703-722 | with mailboxes in the RAM, no stretch below or above both is longer |
| SlaveInitTasks.SlaveInitTask.Start | src/task/slave_initialize.rs:124-128 | starts with the loop port and empty information |
| SlaveInitTasks.SlaveInitTask.NextPdu | src/task/slave_initialize.rs:153-390 | the request bytes of each phase or of the sub-task at the front of the buffer |
| SlaveInitTasks.SlaveInitTask.RecieveAndProcess | src/task/slave_initialize.rs:392-658 | takes the step of the phase machine |
| SlaveInitTasks.SlaveInitTask.Wait | src/task/slave_initialize.rs:130-142 | hands the information out once |
| SlaveInitRuns.AskSucceeds | src/task/slave_initialize.rs:153-390 | in every alternation the `unwrap`s of `next_pdu` succeed and a busy task has a request |
| SlaveInitRuns.HearSucceeds | src/task/slave_initialize.rs:392-658 | a reply ends the program if and only if it shows an unsuitable slave, mailboxes for which the RAM does not compute, or an AL error without a name; every other `unwrap` succeeds, the arm marked unreachable is dead, and phases follow each other |
| SlaveInitRuns.AlSucceeds | src/task/slave_initialize.rs:411-424 | the AL transfer of the slave never completes in another state than Init, and ends the program exactly on an unknown code |
| SlaveInitRuns.SiiSucceeds | src/task/slave_initialize.rs:478-632 | each word read leads to the next one |
| SlaveInitRuns.PhaseAdvances | src/task/slave_initialize.rs:392-658 | only an answered request leads on, and always to the next phase |
| SlaveInitRuns.VisitsEvery | src/task/slave_initialize.rs:392-658 | to be in a phase, every phase before it was answered by the slave |
| SlaveInitRuns.CompleteWroteAddress | src/task/slave_initialize.rs:341-353 | a completed run wrote station address position + 1 to the slave at that position, which took it |
| SlaveInitRuns.SmKept | src/task/slave_initialize.rs:633-658 | once the SII words are read the SyncManager table stays as it is |
| SlaveInitRuns.CompleteWroteSm | src/task/slave_initialize.rs:297-340 | for each SyncManager of the information a completed run hands over, the slave took control and activation registers that say the same |
| SlaveInitRuns.ErrorsReported | src/task/slave_initialize.rs:392-658 | what each error of the task says |
| SlaveInitBus.Fetched | src/task/sii_read.rs:95-231 | the reader ends with what the EEPROM of the slave holds at the address it was started for |
| SlaveInitBus.WordLearned | src/task/slave_initialize.rs:478-632 | each word read adds to the information what the EEPROM holds at that word's address |
| SlaveInitBus.TurnKnows | src/task/slave_initialize.rs:153-658 | every request and reply keeps: what was learned agrees with the slave and its EEPROM, and every register set so far holds what it was set to |
| SlaveInitBusRuns.CompleteIsKnown | src/task/slave_initialize.rs:153-658 | a completed run hands over what the slave and its EEPROM say, the slave is set up, and the registers of all other slaves are as they were, volatile ones aside |
| SlaveInitBus.FinishedInfo | src/task/slave_initialize.rs:427-632 | that information word by word: identity from 8, 0x0A and 0x0C, CoE from 0x1C, mailboxes from 0x19, 0x18, 0x1B and 0x1A capped at 256 bytes, links from 0x0110, features from 0x0000, strict AL from 0x0140 |
| SlaveInitBus.FinishedSm | src/task/slave_initialize.rs:297-340 | the SyncManager registers say what the information says |
| SlaveInitBus.FinishedRegisters | src/task/slave_initialize.rs:153-390 | station address position + 1, FMMUs and error counters cleared, loop port, watchdog divider and watchdogs set, cyclic operation off with DC |
| SlaveInitBus.LineAnswers | src/task/slave_initialize.rs:153-658 | every datagram can pass every line, whoever hears it |
| Networks.LookupsAgree | src/slave/network.rs:37-54 | lookup by position and by station address agree; a station address finds the slave that has it and no other |
| Networks.Network.Clear | src/slave/network.rs:18-21 | the table is empty |
| Networks.Network.PushSlave | src/slave/network.rs:23-31 | appends, or refuses exactly when the table is full |
| Networks.Network.Find | src/slave/network.rs:37-54 | agrees with the lookup on the contents |
| NetworkInit.NetworkInitTask.NextPdu | src/task/network_initilize.rs:103-130 | the counting broadcast, or the request of the current slave's task |
| NetworkInit.NetworkInitTask.RecieveAndProcess | src/task/network_initilize.rs:132-195 | takes the step of the state machine on the shared network table |
| NetworkRuns.AskNet | src/task/network_initilize.rs:103-130 | `next_pdu` succeeds, and a busy task has a request unless it stalled |
| NetworkRuns.HearNet | src/task/network_initilize.rs:132-195 | `recieve_and_process` keeps the table in order; when it stalls, ends the program or refuses a slave |
| NetworkRuns.PushKeeps | src/task/network_initilize.rs:159-191 | a finished slave always hands its information over and is appended under its own number |
| NetworkRuns.ErrorsReported | src/task/network_initilize.rs:132-195 | another command ends the task, an error of a slave is handed on |
| NetworkRuns.RegisterWrite | src/task/slave_initialize.rs:341-353 | a round changes at most the station address register of the current slave |
| NetworkRuns.RunKeeps | src/task/network_initilize.rs:103-195 | table, count and station registers over runs of any length |
| NetworkRuns.CompleteNetwork | src/task/network_initilize.rs:132-195 | at Complete the table holds exactly the counted slaves, slave k under address k + 1, which its register holds |
| NetworkRuns.StationReaches | src/slave/slave.rs:168-170 | a station-addressed command for a slave is then taken by that slave alone |
| NetworkRuns.TooManyIsTrue | src/task/network_initilize.rs:178-180 | the error means that more slaves answered than the full table holds |
| NetworkRuns.StallsIff | src/task/network_initilize.rs:153-156 | the task stops asking while busy if and only if the first request to a slave came back unanswered |
| NetworkRuns.OneSlaveStalls | src/task/network_initilize.rs:153-156 | one slave that answers the count and misses the next request is enough |
| NetworkRuns.StallIsForever | src/task/network_initilize.rs:153-156 | and then stays so |
| NetworkRuns.StopsIff | src/task/network_initilize.rs:157-191 | in every run the program ends if and only if the current slave gives one of the three causes; both arms marked unreachable are dead |
| NetworkBus.TurnKeeps | src/task/network_initilize.rs:103-195 | every request and reply keeps: each entry of the table describes its slave, which is set up |
| NetworkBus.NewSlaveMapped | src/task/network_initilize.rs:163-177 | a slave with two FMMUs and a transmit mailbox has its mailbox state mapped from 0x080D |
| NetworkBusRuns.CountIsLine | src/task/network_initilize.rs:103-150 | when all slaves hear the count, their number is counted |
| NetworkBusRuns.TableIsLine | src/task/network_initilize.rs:103-195 | at Complete there is one entry for each counted slave, each describes its slave and EEPROM, and the slave is set up accordingly |

## Left out

- src/interface/hal.rs and its device errors: the device is the environment; a transmit or receive error would leave `block_on`.
- `configure_sync_mode`, `set_pdo_config_to_od_utility` and the register writes of `set_pdo_to_sm_utility`: straight-line scripts.
- src/master/read_write_as.rs, src/register/od.rs: typed wrappers and tables; only the constants needed appear.
- src/task/loop_task, src/task/address_access_task.rs: tasks of one request that count wrong working counters or copy one register.
- src/task/mailbox.rs: forwards every call to the read or the write task it holds.
- src/task/sdo.rs, sdo_download.rs, sdo_upload.rs: not part of the compiled crate.
- `write_sdo`, `read_sdo`: their case split over the parsed reply; the tables of abort, emergency and mailbox error codes are kept as raw codes.
- Port physics of a slave (`PortPhysics`): read during initialisation and used nowhere in the model.
- `remove_socket` during a run: the run theorems are about sockets that stay in their slots.
- `block_on` (src/task/mod.rs:68-95): its limit of 100000 steps; runs here are as long as replies keep coming.
- The SII reader is modelled on values, as a sub-task of the slave's initialisation.
- Frames.FrameUtil.AddCommand: says nothing about datagrams added behind one whose length was cut; `add_pdu` lets none of that size through.
- PduInterfaces.PduInterface.ReceiveOneFrame: an accepted frame answers what was sent; the slaves change data, address and working counter of the datagrams and not their number or shape.
- SocketInterfaces.SocketInterface.EnqueuePdus: a PDU set while a frame is in flight, which the source would append to the buffer the reply is copied into.
- SocketInterfaces.SocketInterface.TransmitAndReceive: staged PDUs without data, which the frame iterators cannot see (`FrameRoundTrip`, `TransmitOneFrame`).
- SocketInterfaces.SocketInterface.PollTxRx: PDUs without data, and a PDU set while a frame is in flight, as in the two above.
- DcBus.CompleteIsAligned: speaks of the magnitude bits of the delta register; the sign bit is masked as in the source.
