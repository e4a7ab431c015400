# A verified model of libartnet

libartnet is a library for Art-Net 4 nodes and controllers. This project models its stateful
parts in Dafny and proves what they achieve over whole runs, with the branches, constants and
edge cases of the C code.

Each part has the same shape. A specification module says what one packet, call or timer does, as
functions on values. A module of classes and array methods does it the way the C code does, field
by field and loop by loop; each method ends in exactly the state that the specification gives. The
theorems are about runs of the specification, so they hold of the objects. Where a field remembers
something, a theorem says what, from the events and their times alone.

* **Firmware transfer** (`Firmware`, `FirmwareNodes`, `FirmwareProtocol`, `FirmwareLifetime`,
  `SenderOutcome`). The sending and the receiving node of ArtFirmwareMaster / ArtFirmwareReply.
  Whatever replies arrive, however often and in whatever order, wherever the packets stop or the
  receiver times out, and whatever other controllers send, the sender's packets complete at most
  one image, and that image is what the sender was given. The one-byte block id wraps at 256 and
  is resolved against an unbounded counter. With nothing lost, the transfer ends on both sides
  exactly when the image has at most 1024 bytes or is not a multiple of 1024 bytes.
* **Output ports** (`Ports`, `OutputPorts`, `OutputNode`, `RoutingProofs`, `MergeProofs`,
  `SyncProofs`, `FailsafeProofs`). Routing by universe, two-source merging, source expiry,
  AcCancelMerge, ArtSync staging, fail-safe and the recorded scene. Merging refines a map from
  sources to their latest frames.
* **Peer rings** (`Rings`, `PeerRings`). artnet_join splices circular pointer lists. After any
  sequence of joins the pointers form exactly the connected components, each with one master.
* **Discovered nodes** (`Subscribers`, `NodeList`, `Seqlock`, `WriteSections`). The linked list of
  nodes, its sequence lock, and the query that decides who receives ArtDmx.
* **Addresses** (`Addressing`, `AddressedNodes`, `Discovery`). Local setters against ArtAddress,
  and what an ArtPollReply tells a controller.
* **Table of Devices** (`Tods`, `TodData`). The growing byte array of RDM UIDs and the loop that
  splits it into ArtTodData packets.
* **Packets as bytes** (`Codec`, `Builders`). What the builders make passes the validators and is
  read back unchanged.
* `Counterexamples` has an input for each property that one would expect and that the code does
  not have in full. The next section names it, and the theorem with the exact condition.

`dafny verify dfyconfig.toml` checks everything.

## Where the code differs from what one would expect

The model follows the code.

* A firmware image that is a multiple of 1024 bytes and longer than 1024 is never completed: the
  sender marks its last block as a middle one, and the receiver waits for one more
  (`TwoFullBlocksNeverComplete`; `FirmwareProtocol.LockStep`).
* A comment says that merging exits when a source has timed out. The branch of handle_dmx is chosen
  from the addresses read before sources expire, so the packet that drops a source is still merged
  with it (`SilentSourceStillMerged`; `MergeProofs.StaleSourceMergedOnce`), and a newcomer that
  replaces an expired source leaves the MERGE bit set (`MergeBitLeftOn`;
  `MergeProofs.MergeBitStep`).
* The input buffers of a port are not cleared when a source is dropped, and the lengths of the
  frames in them are not kept. A frame that is longer than the other source's is merged with what
  earlier frames left there (`LeftoverMerged`; `MergeProofs.MergeRefinement`).
* ArtNzs restarts the fail-safe clock of a port but does not re-arm a fail-safe that has struck
  (`NzsNeverGuarded`; `FailsafeProofs.LossAnswered`).
* artnet_set_subnet_addr promises to use the low four bits of its argument. It stores all of them;
  every address made from them uses four (`SubnetStoredWhole`; `Addressing.SubnetInRange`).
* find_nodes_from_uni counts ports but fills one slot for each node, and artnet_send_dmx reads as
  many slots as were counted (`UnfilledSlotRead`; `Subscribers.SendsToSubscribers`).
* The sequence lock has 32 bits (`WrappedCounter`; `Seqlock.CheckSeesResidueOnly`).
* ArtTodData packets are numbered with one byte (`BlockNumberWraps`; `TodData.Numbering`).
* artnet_send_nzs sends start code 0x91 with any data; receivers refuse it unless the data is VLC
  (`BareVlcRefused`; `Codec.NzsRoundTrip`).

## Model

| member | source | states |
|---|---|---|
| Common.LengthFieldRoundTrip | artnet/misc.c:50-65 | every signed 32-bit value survives being written big-endian and read back |
| Common.LengthFieldInjective | artnet/misc.c:50-65 | every four bytes survive being read and written back, so no two length fields mean the same |
| Firmware.WireRoundTrip | artnet/misc.c:50-65 | a packet's bytes and its value determine each other, so the protocol may be about values |
| FirmwareNodes.Receiver.HandleFirst | artnet/receive.c:1628-1702 | a first packet is refused while an upload is open or when malformed, and otherwise opens a buffer with the first block in it and the rest unset |
| FirmwareNodes.Receiver.HandleCont | artnet/receive.c:1703-1751 | the exact conditions for a middle block, its place by resolved block id, and no change otherwise |
| FirmwareNodes.Receiver.HandleLast | artnet/receive.c:1752-1832 | the exact conditions for a last block, what is delivered, and the reset afterwards |
| FirmwareNodes.Receiver.HandleFirmware | artnet/receive.c:1613-1836 | the receiver object ends in the specified state and gives the specified reply and delivery, for any packet |
| FirmwareNodes.Receiver.Reset | artnet/receive.c:2258-2266 | every field is cleared but the block counter |
| FirmwareNodes.Receiver.CheckTimeout | artnet/artnet.c:2947-2957 | an upload is dropped 30 s after its first block, whatever came since |
| FirmwareNodes.Sender.TxFirmwarePacket | artnet/transmit.c:560-640 | the packet sent next, and the transfer moved on only when the network took it |
| FirmwareNodes.Sender.SendFirmware | artnet/artnet.c:1265-1315 | a transfer starts with its first packet |
| FirmwareNodes.Sender.HandleFirmwareReply | artnet/receive.c:1845-1897 | what each reply code does to the transfer, and what the application is told |
| FirmwareProtocol.PacketCarriesBlock | artnet/transmit.c:560-640 | the k-th packet, as the receiver reads it, carries exactly bytes 1024k and on, with the total length, the wrapped id and the right type |
| FirmwareProtocol.PacketCode | artnet/transmit.c:574-610 | the type code on the wire, 0 to 5, of the k-th packet |
| FirmwareProtocol.FirstArrives | artnet/receive.c:1628-1702 | the first packet puts the first block in place; a one-block image is delivered at once |
| FirmwareProtocol.ContArrives | artnet/receive.c:1716-1743 | the k-th block extends the received part by exactly itself, also beyond 256 blocks |
| FirmwareProtocol.LastArrives | artnet/receive.c:1764-1832 | a short last block completes the image and frees the receiver |
| FirmwareProtocol.InvariantRun | artnet/receive.c:1613-1836 | in every state of the protocol, other controllers included, the receiver holds exactly the bytes of the packets that arrived while the upload is open, and the sender stands where its packets say |
| FirmwareProtocol.EndToEnd | artnet/receive.c:1613-1897 | under every interleaving of arrivals, replies, timeouts and packets of other controllers, also when the receiver starts out busy with another's upload, the sender's packets complete at most one image, and it is the sender's, byte for byte |
| FirmwareProtocol.BlockTakenIn | artnet/receive.c:1613-1836 | the next packet of the sender extends what was taken in by exactly its block, completes it, or changes nothing |
| FirmwareProtocol.ForeignTakenIn | artnet/receive.c:1628-1832 | a packet of another controller, of any kind, leaves the upload and its deliveries alone |
| FirmwareProtocol.Round | artnet/transmit.c:560-640 | one packet and its reply bring the next block in flight or end the exchange; so the exchange terminates |
| FirmwareProtocol.LockStep | artnet/transmit.c:570-605 | with nothing lost both sides end with ALLGOOD if and only if the image has at most 1024 bytes or 1024 does not divide its length; otherwise all is sent and acknowledged and neither side finishes |
| FirmwareProtocol.AllGoodLengths | artnet/receive.c:1764-1809 | in no state does any packet get ALLGOOD for a multiple of 1024 above 1024 |
| FirmwareProtocol.Placement | artnet/receive.c:1722-1832 | in every valid state an accepted middle block lies inside the buffer and changes nothing else, an accepted last block ends at its end, and a refused one changes nothing |
| FirmwareProtocol.NonInterference | artnet/receive.c:1628-1832 | over any run, with any number of uploads, deleting the packets that come from others than the peer of the open upload leaves the same state and deliveries |
| FirmwareProtocol.IntrudersAreOthers | artnet/receive.c:1628-1832 | while the upload of one peer stays open, those are exactly the packets of all other senders |
| FirmwareLifetime.UploadLifetime | artnet/artnet.c:2947-2957 | over any run of packets and checks from the idle state, an upload opened by the packet at i is still open if and only if no last packet was accepted since and no check came 30000 ms or more after that packet |
| FirmwareLifetime.EndedIsFree | artnet/receive.c:2258-2266 | the event that ends an upload clears all but the block counter, and leaves the receiver free for the first packet of any sender |
| FirmwareLifetime.FirstTaken | artnet/receive.c:1628-1702 | a first packet is taken if and only if it is well formed and no upload is open, not even of its own sender; otherwise nothing changes |
| FirmwareLifetime.AcceptedInFull | artnet/receive.c:1703-1800 | a later packet that is accepted comes from the peer of the upload, under its length, and its block was received in full |
| FirmwareLifetime.OtherTypesFail | artnet/receive.c:1833-1836 | a packet of any other type changes nothing and fails |
| SenderOutcome.OutcomeOfRun | artnet/receive.c:1845-1897 | over any run of the protocol the transfer is over if and only if failure, or success with everything sent, was said, and the application was told what was said first |
| SenderOutcome.ToldOnce | artnet/receive.c:1865-1890 | the application is told at most once: of success if and only if ALLGOOD came when the packets sent covered the image, and no failure before it; of failure if and only if it came, and no such success before it |
| Counterexamples.TwoFullBlocksNeverComplete | artnet/transmit.c:595-597 | an image of 2048 bytes is sent and acknowledged in full and never delivered |
| OutputPorts.OutputPort.StageOutputData | artnet/receive.c:166-184 | a frame goes to the sync buffer in sync mode and to the output otherwise |
| OutputPorts.OutputPort.FlushSyncOutput | artnet/receive.c:186-199 | a pending frame is put out and no longer pending |
| OutputPorts.OutputPort.MergeSources | artnet/receive.c:2232-2250 | the merge loop leaves the channel-wise maximum or the newest frame in the sync buffer, and on the output when not in sync mode |
| OutputPorts.OutputPort.CheckMergeTimeouts | artnet/receive.c:2193-2221 | which slots are freed, and when the MERGE bit falls |
| OutputPorts.OutputPort.AcceptFrame | artnet/receive.c:659-743 | each branch of handle_dmx, on the addresses read before expiry |
| OutputPorts.OutputPort.HandleDmx | artnet/receive.c:612-770 | all fields and buffers of a port after an ArtDmx packet |
| OutputPorts.OutputPort.CheckFailsafe | artnet/artnet.c:2856-2889 | when fail-safe strikes and what each mode puts out |
| OutputNode.OutputSide.HandleDmx | artnet/receive.c:594-772 | every listening port takes the packet, no other port changes |
| OutputNode.OutputSide.HandleNzs | artnet/receive.c:1312-1340 | the first listening port takes the packet, no other port changes |
| OutputNode.OutputSide.HandleSync | artnet/receive.c:1271-1303 | which ports put out their pending frames, and that sync mode starts exactly when one of them accepts |
| OutputNode.OutputSide.HandleCommand | artnet/receive.c:895-1005 | the port and fail-safe commands of ArtAddress, and nothing else changed |
| OutputNode.OutputSide.HandleTimeouts | artnet/artnet.c:2851-2904 | fail-safe on every port, then the end of sync mode with all pending frames put out |
| OutputNode.PortsRunAlone | artnet/receive.c:594-772 | in a run of the node each port goes through a run of its own, so what is proved of one port holds of each |
| RoutingProofs.BindingOfRun | artnet/artnet.c:2315-2374 | over any run a port is in use if and only if it was given an address, and has the last one |
| RoutingProofs.BindReaches | artnet/artnet.c:2338-2354 | giving a port an address changes nothing else |
| RoutingProofs.DmxReaches | artnet/receive.c:612-617 | an ArtDmx packet reaches exactly the ports whose last address is its universe; every other port stays equal to what it was |
| RoutingProofs.NzsReaches | artnet/receive.c:1323-1340 | an ArtNzs packet reaches the lowest such port only, and its frame is put out there with its start code |
| RoutingProofs.SyncReaches | artnet/receive.c:1271-1303 | an ArtSync releases the pending frames of exactly the ports that are in use, were last fed by its sender if at all, and do not merge two addresses; with one of them sync mode and its clock start anew, with none nothing changes |
| RoutingProofs.SyncModeOfRun | artnet/artnet.c:2891-2904 | over any run the node is in sync mode if and only if an ArtSync was obeyed and no check came 4000 ms or more after the last such one |
| RoutingProofs.SyncRunsOut | artnet/artnet.c:2891-2904 | the check that ends sync mode puts out every pending frame; any other leaves pending frames alone |
| RoutingProofs.ModesOfRun | artnet/receive.c:930-988 | over any run the merge mode of each port and the fail-safe mode are those that ArtAddress last chose, by command code |
| RoutingProofs.CommandReaches | artnet/receive.c:895-1005 | what every command code does to sources, output and scene of every port, and that it does nothing else |
| MergeProofs.SlotInvariantRun | artnet/receive.c:659-743 | in every reachable state two occupied slots name two sources and the MERGE bit is set; the branches "matches both" and "no cases matched" are unreachable |
| MergeProofs.MergeBitStep | artnet/receive.c:2193-2221 | one step keeps the MERGE bit exact if and only if no newcomer joins a source that has just gone stale |
| MergeProofs.MergeBitRun | artnet/receive.c:594-760 | without such a step the bit says exactly that both slots are occupied, over whole runs |
| MergeProofs.JoiningNeedsExpiry | artnet/receive.c:619-657 | such a step needs a source that expires while a packet is handled |
| MergeProofs.TimedRun | artnet/receive.c:659-743 | over any run the time in an occupied slot is that of the last packet of its source |
| Counterexamples.MergeBitLeftOn | artnet/receive.c:682-714 | a run of a bound port after which the bit is set with one source held |
| MergeProofs.MeaningOfRun | artnet/receive.c:594-772 | over any run of packets of any lengths, commands, syncs and timers, expiry included, the slots name exactly the sources that the history says are held, each buffer starts with the latest frame of its source, and the MERGE bit is what the history says |
| MergeProofs.NothingDropped | artnet/receive.c:659-743 | while every held source has sent in the last 10000 ms a packet is the plain update of a map from at most two sources to their latest frames |
| MergeProofs.MergeRefinement | artnet/receive.c:594-772 | after any run, expiry included, the next packet puts out its frame when alone, the channel-wise maximum of all latest frames in HTP, the newest frame in LTP, and nothing for a third source, with the output itself untouched in sync mode, if and only if it is not merged in HTP or every level left behind the other source's latest frame, as far as the new frame reaches, is at or below the new one |
| MergeProofs.MergeOfCoveredFrames | artnet/receive.c:594-772 | so it is for every packet no longer than the latest frame of the other held source |
| Counterexamples.LeftoverMerged | artnet/receive.c:2238-2241 | a run after which two sources at 1 and 0 put out levels of a third one that was dropped before |
| MergeProofs.HeldAreFresh | artnet/receive.c:2193-2221 | over any run, when a packet has been handled, every source still held has sent a packet in the last 10000 ms |
| MergeProofs.CancelLeavesNothing | artnet/receive.c:749-760 | the packet that ends a cancelled merge leaves its source alone in the first slot and the second buffer dark |
| MergeProofs.StaleSourceMergedOnce | artnet/receive.c:619-657 | a packet that finds the other source stale is put out as it is if and only if the port is not in HTP mode or no channel of the stale source is higher |
| Counterexamples.SilentSourceStillMerged | artnet/receive.c:716-735 | a run after which a source that the last packet dropped sets the output |
| SyncProofs.PendingOnlyInSyncMode | artnet/artnet.c:2891-2904 | in every reachable state of a node, out of sync mode no port has a pending frame |
| SyncProofs.SoloPortStep | artnet/receive.c:166-199 | one packet or sync of a single source: staged but not shown, or shown |
| SyncProofs.SyncStaging | artnet/receive.c:1271-1303 | with one source in sync mode the frames put out are exactly the last ones of the segments between syncs, and in between the output does not change |
| FailsafeProofs.DmxBetweenStrikes | artnet/artnet.c:2855-2889 | between two strikes of fail-safe on a port lies an ArtDmx to it |
| FailsafeProofs.TriggeredOfRun | artnet/artnet.c:2865-2888 | over any run the port's flag says exactly that fail-safe has struck and no ArtDmx came since |
| FailsafeProofs.StrikesExactly | artnet/artnet.c:2860-2888 | over any run fail-safe strikes if and only if the port is bound, has heard ArtDmx or ArtNzs and nothing since for 800 ms or more, and has not been struck since its last ArtDmx |
| FailsafeProofs.LossAnswered | artnet/receive.c:1323-1332 | a loss is answered, now or since the port last heard something, if and only if no strike came before that without an ArtDmx after it |
| FailsafeProofs.StrikePutsOut | artnet/artnet.c:2867-2888 | a strike puts out 512 channels at 0 or at 255, the scene, or what was there, and changes nothing else but its flag |
| FailsafeProofs.QuietCheck | artnet/artnet.c:2860-2866 | a check without a strike changes nothing |
| FailsafeProofs.StartCodeOfRun | artnet/receive.c:625 | over any run the start code a port shows is that of its last ArtNzs, 0 after ArtDmx |
| Counterexamples.NzsNeverGuarded | artnet/receive.c:1323-1332 | a run with a strike, ArtNzs and silence, after which the ArtNzs frame is still put out |
| FailsafeProofs.ChecksAfterStrike | artnet/artnet.c:2855-2889 | after a strike further checks change nothing while no sync times out |
| FailsafeProofs.SceneKept | artnet/receive.c:942-948 | no traffic but another recording changes the recorded scene |
| FailsafeProofs.SceneRestored | artnet/artnet.c:2875-2880 | after a recording and any traffic, loss of data in scene mode puts out the recorded data and length; an empty scene leaves the output as it was |
| Rings.JoinKeepsPartition | artnet/artnet.c:412-439 | a join, also within one ring, keeps every node in exactly one ring |
| Rings.JoinTogether | artnet/artnet.c:412-439 | after a join two nodes share a ring if and only if they did before or the join brought their rings together |
| Rings.RingsAreComponents | artnet/artnet.c:412-439 | after any sequence of joins the rings are exactly the connected components of the joins |
| PeerRings.SplicePeers | artnet/artnet.c:412-439 | the splice changes exactly two pointers; its walk ends, also when both nodes are on one ring |
| PeerRings.ClearOthers | artnet/artnet.c:412-439 | the master loop ends, makes the first node master and clears every other node of its ring |
| PeerRings.Join | artnet/artnet.c:412-439 | a join of stopped nodes leaves pointers that form the joined rings, each with one master; otherwise nothing changes |
| PeerRings.JoinAll | artnet/artnet.c:412-439 | the same after any sequence of joins, starting from lone nodes |
| PeerRings.OtherPeers | artnet/artnet.c:381-390 | the loops over peers end and visit every other member of the ring once, in ring order |
| PeerRings.VisitRing | artnet/network.c:667-671 | the loop itself, on a lone node, a self-joined node and a ring |
| Subscribers.UpsertLookup | artnet/artnet.c:2643-2683 | an update changes what is known of its own key, moves nobody and keeps keys unique |
| Subscribers.FreshLookup | artnet/artnet.c:2919-2935 | expiry forgets exactly the stale entries |
| Subscribers.FreshConcat | artnet/artnet.c:2919-2935 | expiry keeps the order of what it keeps |
| Subscribers.ListRemembers | artnet/artnet.c:2643-2683 | over any run of replies and expiries keys are unique and each key has its latest reply, unless that was found stale since |
| Subscribers.ListHoldsSurvivors | artnet/artnet.c:2643-2683 | over any run the list holds an entry if and only if it is the last reply from its address with its first output and every expiry since found it at most 15000 ms old; no two entries share both |
| Subscribers.PortTypeBits | artnet/artnet.c:2749-2754 | which bits of a port type say output and input |
| Subscribers.MakeAddrParts | artnet/private.h:391-398 | net, subnet and port are read back from an address |
| Subscribers.HitsMeanSubscription | artnet/artnet.c:2738-2776 | a node has a hit if and only if one of its ports is on the universe |
| Subscribers.QueryAnswer | artnet/artnet.c:2738-2776 | the query fills in the first subscribers in list order, one slot each, and returns the number of matching pairs of entry and port, which is at least that of subscribers |
| Subscribers.SendsToSubscribers | artnet/artnet.c:860-879 | without a broadcast limit each subscriber gets one packet and no one else does, if and only if no entry has two ports on the universe |
| Subscribers.SendsToFirstSubscribers | artnet/artnet.c:880-899 | with a limit the first subscribers get one packet each, if and only if no entry has two ports on the universe or the limit is no more than the subscribers |
| Counterexamples.UnfilledSlotRead | artnet/artnet.c:860-879 | a lone node with two outputs on the universe makes artnet_send_dmx read a slot that was not filled |
| NodeList.NodeList.FindEntry | artnet/artnet.c:2715-2725 | the search finds the first node with the key, or null |
| NodeList.NodeList.Update | artnet/artnet.c:2643-2683 | the linked list represents the sequence after the upsert; `length` and `last` are right; the counter moved by two |
| NodeList.NodeList.ExpireNodes | artnet/artnet.c:2919-2945 | the pointer-to-pointer loop leaves exactly the fresh entries in order; `length`, `last` and `current` are right |
| NodeList.NodeList.VisitEntry | artnet/artnet.c:2749-2772 | one entry takes at most one slot and counts once for each matching port |
| NodeList.NodeList.FindNodesFromUni | artnet/artnet.c:2738-2776 | the walk over the list fills and counts as the query says and leaves the other slots alone |
| NodeList.NodeList.SendDmxTo | artnet/artnet.c:860-899 | the loop sends to exactly the slots named by the query |
| Seqlock.InvariantRun | artnet/private.h:133-137 | under every interleaving the counter is even exactly when no writer is at work, and an undisturbed reader is on track |
| Seqlock.Snapshot | artnet/artnet.c:2738-2776 | a reader that leaves the retry loop returns the answer for one list state, given fewer than 2^32 increments since it began |
| Seqlock.CheckSeesResidueOnly | artnet/private.h:137 | the check passes if and only if the number of increments is a multiple of 2^32 |
| Counterexamples.WrappedCounter | artnet/private.h:133-137 | a run from the start with 2^31 write sections during one pass, after which the reader returns that nobody subscribes while the list has had a subscriber since the first |
| Seqlock.UnfinishedWriteBlocksReaders | artnet/artnet.c:2656-2659 | a writer that never ends its section keeps every reader in the loop |
| WriteSections.UpdateLeaves | artnet/artnet.c:2649-2681 | the stores of an update leave a whole list that holds the upsert |
| WriteSections.ExpireLeaves | artnet/artnet.c:2920-2937 | the stores of the expiry loop, linking past and freeing cell by cell, leave a whole list that holds the fresh entries in order |
| WriteSections.WriteSectionsEnd | artnet/private.h:133-134 | both write sections, run to the end from any list, end with the counter moved by two and that list in memory |
| Addressing.SetNetFollows | artnet/artnet.c:2088-2122 | the net setter changes the net when local control allows it, its local value in any case, and keeps all addresses in step |
| Addressing.SetSubnetFollows | artnet/artnet.c:2139-2174 | the same for the subnet |
| Addressing.SetPortFollows | artnet/artnet.c:2315-2374 | the same for one port; no other port changes |
| Addressing.HandleAddressFollows | artnet/receive.c:819-884 | ArtAddress takes, releases or leaves each setting on its own, and keeps all addresses in step |
| Addressing.AddressControl | artnet/receive.c:819-884 | after any sequence of setters and ArtAddress packets every port address is made of net, subnet and its own low four bits, and each setting has its last network value while the network controls it and its last local value otherwise |
| Addressing.EnabledOfRun | artnet/artnet.c:2338-2346 | over any run an output is in use if and only if it was set locally, or programmed or released by an ArtAddress for this node, and an input if and only if it was set locally |
| Addressing.SubnetInRange | artnet/artnet.c:2139-2174 | the subnet held is below 16 if and only if the network set it or the last local setting was below 16 |
| Counterexamples.SubnetStoredWhole | artnet/artnet.c:2139-2150 | 0x15 is held and reported as given |
| AddressedNodes.AddressedNode.SetNetAddr | artnet/artnet.c:2088-2122 | the node object ends in the specified configuration, all port addresses included; it fails exactly above 127 |
| AddressedNodes.AddressedNode.SetSubnetAddr | artnet/artnet.c:2139-2174 | the same |
| AddressedNodes.AddressedNode.SetPortAddr | artnet/artnet.c:2315-2374 | the same, and that it fails exactly for a bad port, address or direction, changing nothing |
| AddressedNodes.AddressedNode.HandleAddress | artnet/receive.c:784-884 | the same, with the packets that are ignored |
| AddressedNodes.AddressedNode.BuildPollReply | artnet/transmit.c:1469-1500 | the port count loop and the address fields of the reply |
| Discovery.PortsUsed | artnet/transmit.c:1484-1492 | the count is one more than the highest port in use |
| Discovery.PortsReported | artnet/transmit.c:1484-1492 | over any run the reply counts every port that was put in use, and the last one it counts was |
| Discovery.DiscoveryPreservesAddresses | artnet/artnet.c:2785-2820 | a controller that has heard a node's reply finds the node under a universe if and only if a reported port of the node is on it, for every reachable configuration |
| Tods.RemovedOne | artnet/tod.c:83-114 | removal takes out one occurrence and keeps the rest |
| Tods.RemovedPlaces | artnet/tod.c:94-112 | the first occurrence goes, the last entry takes its place, no other moves |
| Tods.TableHoldsDevices | artnet/tod.c:33-152 | over any sequence of calls the table holds exactly the devices added and not removed, and never more than it has room for |
| Tods.RoomOfRun | artnet/tod.c:40-64 | over any run there is room for 100 entries from the first one on, then 50 more at a time, and no more than the longest table called for |
| Tods.Tod.Add | artnet/tod.c:33-74 | the flat array gains one entry at its end, growing when full; without memory nothing changes |
| Tods.Tod.Remove | artnet/tod.c:83-114 | the last entry moves over the first match; failure exactly when there is none |
| Tods.Tod.Flush | artnet/tod.c:122-152 | the table is empty and has no array |
| TodData.TxTodData | artnet/transmit.c:247-303 | the loop ends, builds the specified packets, and stops sending at the first failure |
| TodData.WholeTable | artnet/transmit.c:286-301 | the packets one behind the other are the table; all but the last are full; an empty table is one empty packet; the counts add up |
| TodData.Numbering | artnet/transmit.c:289 | packets are numbered 0, 1, 2... if and only if there are at most 51200 entries, and the total is right if and only if it is below 65536 |
| TodData.SentInOrder | artnet/transmit.c:298 | whatever the network does, what was sent is an initial part of the table, and all of it if and only if no send fails |
| Counterexamples.BlockNumberWraps | artnet/transmit.c:289 | 51201 entries give two packets with number 0 |
| Codec.DmxRoundTrip | artnet/artnet.c:815-855 | artnet_send_dmx takes exactly the even lengths from 2 to 512 on a port that may send; every packet built passes both validators and is read back with the address and sequence number of its port and the same payload |
| Codec.NzsRoundTrip | artnet/artnet.c:999-1059 | the same for ArtNzs, from a server or a raw node, if and only if the start code is not 0x91 or the data has the shape of VLC |
| Codec.VlcRoundTrip | artnet/artnet.c:1079-1104 | artnet_send_vlc passes on exactly the data that receivers accept as VLC, and it is read back unchanged |
| Codec.TodRoundTrip | artnet/transmit.c:259-297 | the same for ArtTodData; the 15-bit address is rebuilt from its two bytes |
| Codec.TableOverTheWire | artnet/transmit.c:247-303 | the datagrams of a whole table, validated and read one by one, give the table |
| Codec.FileFnRoundTrip | artnet/transmit.c:1364-1396 | the same for ArtFileFnMaster; a name longer than 255 bytes is cut |
| Codec.FrameReceived | artnet/receive.c:305-360 | what a receiver reads at each offset of an ArtDmx or ArtNzs packet |
| Codec.ParsedIsSound | artnet/receive.c:305-545 | every packet of the four types that a receiver takes is Art-Net of version 14 or later, was received in full, and has length, start code, port, bind index and terminator as required |
| Codec.NzsTaken | artnet/artnet.c:999-1041 | which calls of artnet_send_nzs are taken and which error the others get |
| Codec.FileFnTaken | artnet/transmit.c:1368-1374 | which file requests are taken |
| Counterexamples.BareVlcRefused | artnet/receive.c:349-357 | one byte under start code 0x91 is sent and refused |
| Builders.SendDmx | artnet/artnet.c:808-855 | the buffer filled in place is the specified packet; which calls are refused, and with which error |
| Builders.SendNzs | artnet/artnet.c:999-1059 | the same for ArtNzs, by node type |
| Builders.SendThroughInput | artnet/transmit.c:680-716 | a server sends through its first enabled input on the universe, and refuses without one or when it is disabled |
| Builders.SendTod | artnet/transmit.c:259-297 | the same for ArtTodData |
| Builders.SendFileFn | artnet/transmit.c:1364-1396 | the same for ArtFileFnMaster, refused on a stopped node and without a name |

## Left out

- Sockets, interfaces and artnet_net_send: a send is an appended packet, and its success an input.
- The clock: every packet, command and timer carries its time, one for all that it does.
- Application callbacks, and packets that are only handed to one (time code, trigger, command, media, directory, data request).
- ArtIpProg, node names, status and report codes and strings, the random delay of ArtPollReply, and replies sent when something changes.
- Sequence counters, the keep-alive of inputs, diagnostics and TOD requesters: easy invariants.
- Node types, modes and the bind index do not change during a run of `Addressing`. In a run of `OutputNode` a port is given an address by one event, whoever programs it; `Addressing` has the address setters and ArtAddress.
- Port types are any bytes in `Discovery`; the commands that change them are modelled for what they do to merge sources only.
- Status bits of a port other than MERGE, and the ArtAddress commands for LEDs, protocol selection, output style, RDM and background queues.
- Memory running out: `Tods.Tod.Add` has it; elsewhere memory can be had. What artnet_nl_update then does to readers is `Seqlock.UnfinishedWriteBlocksReaders`.
- Sources with address 0, and firmware lengths or block counts beyond a signed 32-bit integer.
- The expiry of a node-list entry with a firmware transfer in it: the sender then sends no more, which the protocol allows at any point.
- Seqlock: one reader, one writer, sequentially consistent steps. The writer's stores are any stores; `WriteSections` has those of the two write sections, with the fields of an entry copied in one store.
- NodeList.NodeList.SendDmxTo: a slot read beyond the array, or not filled in, is None; what is there in memory is not modelled, nor is a negative broadcast limit.
- NodeList.NodeList.FindNodesFromUni: the walk without the retry loop around it, which is `Seqlock`.
- FirmwareNodes.Sender.SendFirmware: one transfer; the search for the node's entry, and the refusals without an entry, on a stopped node, for other node types and without memory, are easy and left out.
- FirmwareNodes.Sender.HandleFirmwareReply: the search for the entry with the reply's source address is left out; `FirmwareProtocol` allows replies from anyone.
- NodeList.NodeList.ExpireNodes: the pointer to a pointer is the node whose `next` field it is, or null for the head of the list.
- FailsafeProofs.SceneRestored: a sync timeout in the same check then puts out a pending frame over the scene, as `Ports.Tick` says.
- Codec: the packet types other than the five named above.
