# WirePup, verified

WirePup watches a network segment, tells what it sees, and can add a temporary IPv4 address to reach a device. This
project models the parts of it whose correctness is not visible in any single function, and proves what they promise:

* **The packet filter** (`Bpf`, `BpfCorrectness`, `BpfLinking`). Match rules are compiled to a classic-BPF socket filter.
  The filter runs on a small-step machine with the registers A, X and pc, where a load past the end of the frame drops
  it. A rule therefore means one of three things on a frame: match, no match, or fault. The compiler is proved correct
  against that meaning for every rule list that assembles, and exactly the lists that assemble are characterized.
* **The decoder behind the filter** (`Wire`, `Decode`, `Packets`, `Dispatch`, `Filters`). What comes out of a frame is stated
  from its bytes, branch by branch, and the kernel filter of a single selection is proved to hide nothing that the decoder
  would show.
* **The temporary-address session** (`Session`, `SessionManager`, `Owned`, `HostSession`, `Cleanup`). Several processes share a lock, a
  session file and the kernel's address table, and can die between any two steps. `Session` is the transition system
  with its invariant, `SessionManager` the calls as methods that are proved to be runs of it, `Owned` the inspection and
  the kernel's primary/secondary deletion, `HostSession` the calls on a host whose live addresses are a kernel table,
  `Cleanup` the guide's removal of what it added.
* **The device table** (`Devices`, `DeviceTable`, `Sightings`) and **the EPICS tables** (`Searches`, `SearchTable`,
  `Epics`, `Histories`). Values and their laws come first; the classes, with their maps and lists of shared records, are
  proved to follow them. `Histories` says what the EPICS tables know of any sequence of messages, and `Discovery` follows a
  search and its answer from the frames on the wire to the tables.
* **The Channel Access and PVAccess codecs** (`Stream`, `Ca`, `Pva`, `PvaReader`, `PvaMessages`, `PvaBuild`, `PvaOrders`).
* **The prompt** (`Prompt`). Reader, callers and terminal as one transition system, and the reader's loop as a run of it.
* **Address ranges** (`Ranges`), shared by sweep, recommendation and refusal.

`Bytes`, `NetIp` and `Wrappers` hold what the others share. Time, sockets, subprocesses and files are choices of the
environment: a method that meets them takes what they answer as a parameter, and a transition system has a step for each
possible answer. `ip` is assumed to report truthfully (success means applied, a known failure not applied), and a session
file is written atomically.

## What came out otherwise than one might expect

* `filterFor` ranges over a Go map, so the order of the selected names is arbitrary. `RangeOrderFreeIff` shows when that is
  harmless for a frame: exactly when the rules of one name, taken together in their order, do not match it while those of
  another fault on it. `CombinedSelectionOrderMatters` has a 14-byte frame on which the selection `ipv4,dhcp` accepts or
  drops by chance.
* A frame whose VLAN tag is still in band is decoded behind its tag but filtered in front of it. `ShownAcceptedIffOutOfBand`
  makes it exact: of all the decoder shows of such a selection, the filter lets pass what has its tag out of band, and no
  other frame; `InBandTagHidden` is an ARP frame that is shown and dropped.
* The linker's real capacity is not a constant: `AssemblesIff` gives it exactly, and 257 instructions always fit.
* A search reply with id 0xffffffff and port 5 or 10 is taken for a search, and no other is (`Ca.ReplyRoundTrip`).
* A PVAccess response with more than 65535 ids loses ids, because their count has 16 bits (`ManyIdsLost`).
* The package comment of `networkcfg` says an interrupted run never leaves an unrecorded address. It can: `ip` outlives a
  process that dies while waiting for it, the lock is released, another process finds the address absent and drops the
  record, and then `ip` applies the address (`DyingAddCanEscape`). `GoesWrongIffOvertaking` shows that this is the only
  way, and `CrashSafeRecording` that without it the promise holds in every interleaving.
* The cascade guard of `RemoveOwned` compares the subnet of the last primary entry of the owned address. With a second
  entry of the same address (another peer) it can compare the wrong one (`SecondPeerHidesSecondary`). `ProtectedIffGuarded`
  says exactly when it protects a deletion, and `UnguardedLoses` gives the table that loses an address otherwise.
* A cleanup of the guide in which everything works still fails when another process has recorded one of its addresses, or
  when one is live without a record, as after a removal by others and an add by hand. `CleanupSucceedsIffClear` shows that
  it fails in no other case.

## Model

| member | source | states |
|---|---|---|
| BpfCorrectness.AssembledVerdict | internal/capture/bpf/bpf.go:82-232 | compiler correctness: for every rule list that assembles and every frame, the program returns the accept length exactly when the rules tried in order match before any load faults, and 0 otherwise |
| BpfCorrectness.OrderMattersIffMatchAndFault | internal/capture/bpf/bpf.go:82-95 | all orders of the rules handed to the assembler give a frame the same verdict if and only if it does not make one rule match and another fault |
| BpfCorrectness.FaultFreeVerdict | internal/capture/bpf/bpf.go:82-95 | on a frame where no rule faults the program accepts exactly when some rule matches |
| BpfCorrectness.BlocksForDenote | internal/capture/bpf/bpf.go:98-120 | the blocks of a rule, run one after the other on any registers, give the frame the meaning of the rule |
| BpfCorrectness.Ipv4BlockDenotes | internal/capture/bpf/bpf.go:122-148 | the IPv4 block means: IPv4, the protocol, and a port of a first fragment at the header's own length |
| BpfCorrectness.Ipv6BlockDenotes | internal/capture/bpf/bpf.go:150-173 | the IPv6 block means: IPv6, the next header, and a port at its fixed place |
| BpfCorrectness.LinkedRuns | internal/capture/bpf/bpf.go:177-213 | a linked program runs the blocks in order: a match reaches the accept return, a fault drops, a miss goes on |
| BpfLinking.AssembledStaysInside | internal/capture/bpf/bpf.go:177-232 | every instruction of an assembled program loads and goes on, jumps forward inside the program, or returns |
| BpfLinking.AssembledHalts | internal/capture/bpf/bpf.go:82-95 | on every frame an assembled program halts at a return within as many steps as it has instructions |
| BpfLinking.AssemblesIff | internal/capture/bpf/bpf.go:98-120 | a rule list assembles if and only if every rule is valid and the code fits the reach of the first accepting jump |
| BpfLinking.Within257Assembles | internal/capture/bpf/bpf.go:226-232 | valid rules expanding to at most 257 instructions always link, in any order, despite 8-bit jumps |
| BpfLinking.Beyond257Fails | internal/capture/bpf/bpf.go:226-232 | the bound is tight: 129 and more EtherType rules never link |
| Bpf.Assemble | internal/capture/bpf/bpf.go:82-95 | the loop over the rules computes the specification function Assembled, errors included |
| Bpf.Link | internal/capture/bpf/bpf.go:177-213 | the nested loops over blocks and instructions compute Linked, or report the first jump out of range |
| Filters.FilterFor | cmd/wirepup/filters.go:63-92 | for any range order, the loop yields the program, the display set, the first unknown name or the error that Selected says |
| Filters.WantPacket | cmd/wirepup/filters.go:46-56 | a packet is shown exactly when there is no display filter or some observation is of a displayed protocol |
| Filters.SelectionAssembles | cmd/wirepup/filters.go:24-40 | every combination of protocols with kernel rules assembles, in whatever order they come |
| Filters.KernelFilterComplete | cmd/wirepup/filters.go:24-32 | for arp, lldp, ipv4, ipv6, dhcp and tcp: whatever a decoder in any state would show of a frame whose tag travels out of band, the compiled program accepts, for every capture length |
| Filters.DhcpRulesDecide | internal/capture/bpf/bpf.go:122-148 | on a frame the IPv4 and UDP parsers read as a DHCP datagram, the port loads hit its ports and no rule faults |
| Filters.DeliveredFrame | internal/protocol/ethernet/ethernet.go:58-84 | with the tag out of band, the decoder reads the type the filter reads, and a payload that follows it |
| Filters.ObservedLooksLike | internal/decode/decode.go:104-148 | an observation tells the headers of the frame it came from |
| Filters.ShownAcceptedIffOutOfBand | internal/capture/bpf/bpf.go:34-48 | for arp, lldp, ipv4, ipv6, dhcp and tcp, any decoder state and capture length: a frame the decoder shows is accepted by the program if and only if its 802.1Q tag, if any, travelled out of band |
| Filters.InBandTagHidden | internal/protocol/ethernet/ethernet.go:58-84 | an ARP frame with its tag in band is shown by the decoder and dropped by the filter for arp |
| Filters.CombinedSelectionOrderMatters | cmd/wirepup/filters.go:71-87 | a bare IPv4 frame is accepted under ipv4,dhcp in one range order and dropped in the other |
| Filters.RangeOrderFreeIff | cmd/wirepup/filters.go:71-87 | all range orders over the names of a selection give a frame the same verdict if and only if it does not make the rules of one name match and those of another fault |
| Filters.KernelIff | cmd/wirepup/filters.go:71-91 | a selection becomes a program exactly when every name in it has kernel rules, and then that of its rules in the order of the names |
| Discovery.SelectionShows | cmd/wirepup/filters.go:24-56 | a selection shows a packet exactly when one of its observations is of a selected protocol, for every name of the table |
| Discovery.FrameShown | internal/decode/decode.go:139-148 | frame, arp, lldp, ipv4 and ipv6 show exactly the frames of their type whose parser accepts them |
| Discovery.NdpShown | internal/decode/decode.go:152-189 | ndp shows exactly the frames whose IPv6 walk ends at an ICMPv6 message that parses |
| Discovery.UdpAcceptedIff | cmd/wirepup/filters.go:24-40 | for every name with kernel rules: an untagged datagram passes its program exactly if the name is ipv4 or listens on its ports |
| Discovery.TcpAcceptedIff | cmd/wirepup/filters.go:34-40 | an untagged segment passes exactly the programs for ipv4, tcp, ca and pva, on any port |
| Discovery.NdpAcceptedIff | cmd/wirepup/filters.go:31-31 | the program for ndp accepts exactly the frames of the IPv6 type whose first next-header field is 58 |
| Discovery.BuiltPvaBeaconIsShown | cmd/wirepup/filters.go:39-39 | a built PVA beacon is shown under pva, and passes its program exactly on port 5076 |
| Decode.Decoder.Decode | internal/decode/decode.go:104-148 | one packet yields the observations and the new counters and learned ports of the specification |
| Decode.Decoder.DecodeIpv4 | internal/decode/decode.go:222-247 | an IPv4 payload goes to UDP or TCP only when it is not withheld; learned ports grow by what was observed |
| Decode.Decoder.DecodeUdp | internal/decode/decode.go:253-274 | a datagram yields what DecodedUdp says, which Dispatch.UdpDispatch states from the bytes; learned ports grow by what was observed |
| Decode.Decoder.DecodeTcp | internal/decode/decode.go:309-334 | state events, then PVA by port or structure, then CA by port |
| Decode.Decoder.DecodeCa | internal/decode/decode.go:338-361 | UDP must parse as a whole, TCP may end inside a message; servers' ports are learned |
| Decode.Decoder.DecodePva | internal/decode/decode.go:278-304 | the same for PVA; a malformed message is only a strong hint |
| Decode.RunLearnsWhatWasAdvertised | internal/decode/decode.go:104-148 | over any run every packet is numbered and counted as exactly one of decoded, malformed and skipped, and the learned ports are exactly those that emitted search responses and beacons advertised |
| Decode.RunCountsEach | internal/decode/decode.go:104-119 | over any run skipped counts the packets of other link types, malformed the frames too short for their header or tag, decoded all others |
| Dispatch.UdpDispatch | internal/decode/decode.go:253-274 | from the bytes of a datagram: DHCP, CA and PVA by port, then PVA and CA by their first bytes; what parses as a whole yields one observation per message in order, confirmed on its port unless malformed, anything else nothing |
| Dispatch.TcpDispatch | internal/decode/decode.go:309-334 | from the bytes of a segment: an event for SYN, FIN or RST, then PVA by configured or learned port or by first bytes, then CA by port; a rest that is no message lowers the messages before it to strong hints |
| Dispatch.UdpFrameDispatch | internal/decode/decode.go:222-274 | the same for a datagram in an IPv4 packet in a frame, with or without tag, options and padding |
| Dispatch.TcpFrameDispatch | internal/decode/decode.go:222-334 | the same for a segment in a frame |
| Dispatch.Ipv4FrameDecodes | internal/decode/decode.go:222-247 | a frame with an IPv4 packet yields the frame, the packet, and its transport's observations unless it is a later fragment |
| Dispatch.PvaStreamRecognized | internal/epics/pva/pva.go:208-211 | whatever starts with a PVA message is recognized as PVA on any port |
| Dispatch.BuiltPvaBeaconIsLearned | internal/decode/decode.go:278-304 | a built PVA beacon in a frame is decoded with GUID, server and port, confirmed on the PVA port and a strong hint on others, and its port is learned |
| Dispatch.BeaconOpensPort | internal/decode/decode.go:319-329 | after such a beacon a segment on the advertised port is read as PVA, confirmed |
| Dispatch.BuiltPvaResponseIsLearned | internal/decode/decode.go:278-304 | the same for a built search response, with all its ids |
| Dispatch.BuiltPvaSearchIsSeen | internal/decode/decode.go:278-304 | a built PVA search in a frame is decoded with its sequence and flags, and its channel exactly when the name fits |
| Dispatch.BuiltCaBeaconIsLearned | internal/decode/decode.go:338-361 | a built CA beacon in a frame is decoded and its port learned on the CA ports and, if it has a port, on others; on the PVA port and without a port it is not |
| Dispatch.BuiltCaReplyIsLearned | internal/decode/decode.go:338-361 | a built search reply in a frame is decoded as the sender's response, and its port learned, exactly outside the classifier's overlap |
| Dispatch.BuiltCaSearchIsSeen | internal/decode/decode.go:338-361 | a built CA search in a frame is decoded as a version message and the request, its name coming back exactly when printable and at most 512 bytes |
| Packets.EthernetParses | internal/protocol/ethernet/ethernet.go:58-84 | a frame written as IEEE 802.3 and 802.1Q say reads back field by field, tagged or not |
| Packets.Ipv4Parses | internal/protocol/ipv4/ipv4.go:59-96 | a packet written as section 3.1 of RFC 791 says reads back with its addresses, flags and offset, whatever padding follows; a later fragment keeps no payload |
| Packets.UdpParses | internal/protocol/udp/udp.go:27-46 | a datagram reads back, whatever padding follows |
| Packets.TcpParses | internal/protocol/tcp/tcp.go:46-68 | a segment reads back, its payload being all after the options |
| Session.CrashSafeRecording | internal/networkcfg/networkcfg.go:215-376 | over every interleaving of adds and removals of several processes with crashes between any two steps, save failures, unknown outcomes and outside changes, every live address WirePup applied is recorded and no address has two records, as long as no removal overtakes an orphaned ip |
| Session.RecordsAreUnique | internal/networkcfg/networkcfg.go:238-242 | from an empty session no run at all, orphans included, ever records an address of an interface twice |
| Session.GoesWrongIffOvertaking | internal/networkcfg/networkcfg.go:272-308 | once a removal has looked its record up, some continuation applies an unrecorded address if and only if an ip that is to add it outlived its process |
| Session.DyingAddCanEscape | internal/networkcfg/networkcfg.go:116-134 | from the empty session some run ends with an applied address without a record |
| Session.StepKeepsInv | internal/networkcfg/networkcfg.go:215-376 | each step of a process, a crash, an orphan or the outside keeps the invariant; only the lock holder acts |
| Session.SaveKeepsInv | internal/networkcfg/networkcfg.go:169-186 | saving before the add, rolling the add back and dropping a record each keep every applied address recorded |
| Session.StepKeepsOthers | internal/networkcfg/networkcfg.go:256-266 | the file changes only by a save of the lock holder, and then all records about other addresses stay, in order |
| Session.OwnedIsSole | internal/networkcfg/networkcfg.go:338-347 | the search of RemoveOwned finds a record exactly when it is the only one about the address and equals the entry, and misses exactly when there is none |
| Session.FindLast | internal/networkcfg/networkcfg.go:283-291 | Remove takes the last record of the interface, address and prefix length, and fails only if there is none |
| Session.AppliedStaysRecorded | internal/networkcfg/networkcfg.go:258-267 | once an add's child has applied the address, it is live and recorded until something deletes it, whatever other processes and the outside do meanwhile |
| Session.MovedKeepsInv | internal/networkcfg/lock_unix.go:18-48 | a process not holding the lock is idle, so releasing it, also by dying, leaves the others' view intact |
| SessionManager.Manager.Record | internal/networkcfg/networkcfg.go:225-257 | the record is appended and saved before anything is applied, and only if the address has none yet; every error leaves the file as it was |
| SessionManager.Manager.Configure | internal/networkcfg/networkcfg.go:259-267 | success keeps the record, an unknown outcome too, a known failure rolls back only this record |
| SessionManager.Manager.AddContext | internal/networkcfg/networkcfg.go:215-268 | an entry is returned if and only if the call is not cancelled, ip is there, the prefix fits, lock, load and save work, the address has no record, and ip succeeds; each error has its exact cause and says what file and address table are left |
| SessionManager.Manager.LookUp | internal/networkcfg/networkcfg.go:283-291 | the loop finds the last matching record |
| SessionManager.Manager.LookUpOwned | internal/networkcfg/networkcfg.go:338-347 | the loop finds the sole equal record, nothing, or reports a changed owner |
| SessionManager.Manager.Drop | internal/networkcfg/networkcfg.go:292-307 | a record is dropped only when its address is gone, and only that record; with everything working it succeeds |
| SessionManager.Manager.Remove | internal/networkcfg/networkcfg.go:272-308 | it succeeds exactly when lock, load and save work, the address is recorded, and ip, if the address is live, is there and succeeds; then the address is absent and exactly its last record dropped; failure leaves the file unchanged and has its exact cause; the call stays a careful run unless an orphaned ip is still to add the address |
| SessionManager.Manager.RemoveOwned | internal/networkcfg/networkcfg.go:321-376 | ip runs only after an inspection found the address; on success neither record nor address is left; where ip and files work it succeeds, runs ip, and fails by each error exactly under the condition stated for it |
| SessionManager.Manager.Delete | internal/networkcfg/networkcfg.go:357-366 | ip is run once if it is there, the address goes if ip applied, and the record is kept unless success is confirmed |
| SessionManager.Manager.Meanwhile | internal/networkcfg/lock_unix.go:18-48 | between two calls any run of other processes, orphans and the outside that leaves the lock free may happen |
| HostSession.InspectionIsRight | internal/networkcfg/owned_linux.go:22-149 | an inspection over dumps that tell the table decides exactly whether the recorded address is live |
| HostSession.DeletionIsExact | internal/networkcfg/owned_linux.go:98-107 | after an inspection that found the address, the kernel deletion takes exactly its entry from the table and no live address along |
| HostSession.ToldSucceedsIff | internal/networkcfg/owned_linux.go:22-149 | over complete dumps that tell the kernel table, an inspection succeeds if and only if no link has only one of the recorded name and index and, if the interface is there, every entry of the address has the recorded prefix and label and is a secondary or alone in its subnet |
| HostSession.AllowedIsRemoved | internal/networkcfg/networkcfg.go:321-376 | a recorded live address that the table so allows is removed, record and address, when everything works |
| HostSession.SecondaryAllowed | internal/networkcfg/owned_linux.go:90-96 | a recorded live secondary address with its label, as one added beside the interface's own, is always so allowed |
| HostSession.Host.AddContext | internal/networkcfg/networkcfg.go:215-268 | an entry is returned exactly when everything the add needs works, and then it has its record and the kernel table exactly one more entry, its own; otherwise the errors and the table are as stated |
| HostSession.Host.RemoveOwned | internal/networkcfg/networkcfg.go:321-376 | on a kernel table with one entry per address and dumps that tell it: whatever fails, the table stays as it was or loses exactly the one entry of the owned address, cascade included; accuracy and the absence of a cascade are derived |
| SessionManager.Manager.RemoveChecked | internal/networkcfg/networkcfg.go:330-375 | the part under the lock, in the order search, inspection, deletion, save |
| Owned.Attributes | internal/networkcfg/owned_linux.go:56-73 | the loop keeps the last attribute of each kind and fails on a malformed address |
| Owned.AddressListed | internal/networkcfg/owned_linux.go:40-107 | the loops over the dump compute presence, the primary's subnet and the refusal of a shared subnet |
| Owned.InterfaceListed | internal/networkcfg/owned_linux.go:119-148 | the loop finds the interface under its name and index, or fails if only one of them fits |
| Owned.Inspect | internal/networkcfg/owned_linux.go:22-112 | links, addresses and links again, any failed dump being an error |
| Owned.InspectionIsAccurate | internal/networkcfg/owned_linux.go:22-149 | an inspection that succeeds reports presence exactly when both link dumps have the interface and the address is listed, then with the recorded prefix and label |
| Owned.DecidedOkIff | internal/networkcfg/owned_linux.go:40-112 | over readable dumps the address walk succeeds if and only if every listed entry of the address has the recorded prefix and label and no other listed address lies in the subnet of its last primary; secondary entries are accepted |
| Owned.InspectionSucceedsIff | internal/networkcfg/owned_linux.go:22-149 | an inspection succeeds if and only if the links are dumped and each has both or neither of the recorded name and index, and, if the interface is among them, the address walk allows the entry and the links are dumped that way again |
| Owned.InspectionTellsIfLive | internal/networkcfg/owned_linux.go:22-149 | over faithful dumps of an unchanging system it tells exactly whether the recorded address is live |
| Owned.OwnedRemovalIsExact | internal/networkcfg/owned_linux.go:98-107 | with one entry per address, a deletion the inspection lets pass removes the owned address and nothing else from the table |
| Owned.GuardedTakesNoOther | internal/networkcfg/owned_linux.go:92-107 | with any number of entries of the owned address, deleting a guarded one that passes the inspection takes no other address along |
| Owned.ProtectedIffGuarded | internal/networkcfg/owned_linux.go:92-107 | whatever other address the interface has besides, deleting an entry of the owned address is refused or leaves every other address, if and only if the entry is secondary or the compared primary is in its subnet |
| Owned.UnguardedLoses | internal/networkcfg/owned_linux.go:92-107 | for every unguarded entry there is a table, faithfully dumped and passed by the inspection, whose deletion loses another address |
| Owned.SecondPeerHidesSecondary | internal/networkcfg/owned_linux.go:92-107 | with the owned address configured a second time for another peer, the guard passes and the deletion takes a secondary along |
| Cleanup.Guide.Connect | cmd/wirepup/cmd_guide.go:341-350 | an entry joins the guide's list exactly when it was recorded and applied, and that is exactly when everything the add needs works |
| Cleanup.Guide.RemoveEntry | cmd/wirepup/cmd_guide.go:519-535 | one removal of the cleanup: success leaves neither record nor address, and with everything working it is CleanOne on the table |
| Cleanup.Guide.Cleanup | cmd/wirepup/cmd_guide.go:512-537 | on a kernel table with honest dumps, a cleanup that reports success leaves none of its entries recorded or live; whatever it reports, no other record or table entry is touched; if everything works at each removal it computes exactly CleanAll |
| Cleanup.CleanupSucceedsIffClear | cmd/wirepup/cmd_guide.go:519-536 | after any history of adds, removals by others, re-adds and changes by hand, CleanAll succeeds if and only if no other process has recorded one of the guide's addresses and none of them is live without a record |
| Cleanup.HandAddedFails | internal/networkcfg/networkcfg.go:355-360 | an address the guide lost and someone added by hand makes the cleanup fail without any foreign record |
| Cleanup.FirstEntryFirstFails | cmd/wirepup/cmd_guide.go:519-520 | with an address added twice, removing the first entry first fails where last first succeeds |
| Cleanup.HistoryKeepsLedger | cmd/wirepup/cmd_guide.go:341-361 | over any history the guide's recorded entries are the latest ones for their addresses |
| Devices.ClaimIndexAgrees | internal/device/device.go:298-308 | in every reachable table the claimants of an address are, without duplicates, exactly the devices holding it strongly, Conflicts lists exactly the contested addresses, and k claimants have caused max(0, k-1) conflict events |
| Devices.ConflictsReported | internal/device/device.go:683-707 | from any consistent table, a run reports one conflict for each claimant beyond the first |
| Devices.AddressStates | internal/device/device.go:625-679 | each device lists an address once per family, at most 16 weak ones per list, and its confidence is what its addresses justify |
| Devices.AddressFamilies | internal/device/device.go:625-643 | in every reachable table each list holds only valid, specified addresses of its own family |
| Devices.RunGrows | internal/device/device.go:625-667 | no run removes a device or address, weakens an address state or takes a confirmation back |
| Devices.NotePreservesList | internal/device/device.go:640-662 | a sighting keeps the addresses distinct and the weak ones capped, and nothing in the list moves or weakens |
| Devices.NoteStrong | internal/device/device.go:650-666 | an address is strongly held afterwards exactly if it was, or this sighting was strong |
| Devices.NotedKeepsConfidence | internal/device/device.go:672-679 | confirmed iff some address is strong, weak hint iff there are none, after every sighting |
| Devices.NoteClaimClaimants | internal/device/device.go:683-700 | a claim adds its device once to its own address and changes no other |
| Devices.ConflictingExactly | internal/device/device.go:298-308 | the listed conflicts are exactly the claims with more than one device |
| DeviceTable.Locate | internal/device/device.go:644-648 | the loop finds the first entry of an address |
| DeviceTable.WeakCount | internal/device/device.go:721-729 | the loop counts the weakly seen addresses |
| DeviceTable.NoteInList | internal/device/device.go:644-662 | the list update of the specification, drop included |
| DeviceTable.DeviceRecord.Sight | internal/device/device.go:640-679 | the record's list, overflow count and confidence change as specified |
| DeviceTable.ClaimRecord.Note | internal/device/device.go:694-701 | the claim gains the device at most once |
| DeviceTable.Table.Touch | internal/device/device.go:598-621 | map and list stay in agreement, the device exists, and exactly a first sighting is reported |
| DeviceTable.Table.AddAddress | internal/device/device.go:625-667 | device record, claim index and events change together as specified |
| DeviceTable.Table.RecordClaim | internal/device/device.go:683-707 | the claim index changes as specified and a conflict is reported for each claimant after the first |
| DeviceTable.Table.ListConflicts | internal/device/device.go:298-308 | exactly the claims with more than one device, oldest first |
| DeviceTable.KnownDevice | internal/device/device.go:598-604 | the map finds the record a search of the ordered list would |
| Sightings.Apply | internal/device/device.go:325-354 | each observation makes the table take exactly the steps and report exactly the events specified for it, and the table then shows it: the right device, the right address, the right state, and nothing else changed, for every kind of observation |
| Sightings.OpsShow | internal/device/device.go:358-576 | what the table shows after an observation, told from the table before and after alone: whose address it is about and in which state, for every ARP role, IPv4, IPv6, each NDP message and each DHCP message |
| Sightings.ObservationClaims | internal/device/device.go:404-576 | an observation makes exactly those pairs of address and device strongly held that it claims: the ARP sender's own address unless it probes, the NDP target or source, a DHCP lease and the server's address; none is ever lost |
| Sightings.AskingClaimsNothing | internal/device/device.go:441-456 | a host that asks for an address does not come to hold it |
| Sightings.StepReportsChanges | internal/device/device.go:598-667 | a new device is reported exactly when one becomes known, and an update exactly when the state of an address changes |
| Sightings.UsableV4Ranges | internal/device/device.go:789-791 | the usable IPv4 addresses as ranges |
| Devices.SeenFromFirstToLatest | internal/device/device.go:598-613 | over any run a device is on record exactly if it was seen, from its first sighting to the latest in time, in whatever order the times came |
| Sightings.ApplyDhcp | internal/device/device.go:517-576 | a lease for the client, and the server's own address for the sender of the frame |
| Sightings.HoldsFollowTouch | internal/device/device.go:441-471 | every address step follows a sighting of its device with a valid MAC |
| Searches.SearchesAreLogTail | internal/device/epics.go:167-191 | the live searches are always the last min(n, 10000) of the insertion history, with distinct keys |
| Searches.ResponsesAreListed | internal/device/epics.go:194-215 | every response on any search, live or evicted, is from a known server whose sorted duplicate-free names include the search's |
| Searches.AnswersAreConserved | internal/device/epics.go:203-215 | where only answers to known searches count, the servers' answers sum to the responses held by live and evicted searches |
| Searches.StepServers | internal/device/epics.go:237-249 | no step loses a server or a name, and answers rise by exactly what the step credits |
| Searches.AddUniqueSorts | internal/device/epics.go:379-387 | the list stays sorted without duplicates and gains exactly the name |
| Searches.BelowTotal | internal/device/epics.go:379-387 | byte-wise order is total, so the sorted list is unique |
| SearchTable.WithName | internal/device/epics.go:379-387 | the loops compute the list with the name in its place |
| SearchTable.Correlator.Seek | internal/device/epics.go:308-323 | a search is counted again or inserted, map and list agreeing |
| SearchTable.Correlator.DropOldest | internal/device/epics.go:316-320 | eviction removes the oldest from the list and, by the key recomputed from its fields, from the map |
| SearchTable.Correlator.Meet | internal/device/epics.go:364-377 | the server exists once afterwards and its last sighting is advanced |
| SearchTable.Correlator.Answer | internal/device/epics.go:333-346 | search and server change together; an answer to an unknown search counts only where it should |
| SearchTable.SearchesIndexedLess | internal/device/epics.go:316-320 | removing the first search under its recomputed key leaves map and list in agreement |
| Epics.CaAnswersAreReplies | internal/device/epics.go:333-347 | after any messages a CA server's answers equal the number of search responses naming its address and port |
| Epics.CaTablesTidy | internal/device/epics.go:287-362 | after any CA messages the tables are the bounded log, sorted and mutually consistent |
| Epics.PvaTablesTidy | internal/device/epics.go:159-235 | the same for PVA, and the servers' answers sum to the responses all searches ever held |
| Epics.ApplyCa | internal/device/epics.go:287-362 | a CA message makes the tables take exactly its steps, whose effect on every search, name and server the Histories rows state |
| Epics.ApplyPva | internal/device/epics.go:159-235 | a PVA message makes the tables take exactly its steps, one per channel or id, whose effect the Histories rows state |
| Epics.FoldCa | internal/device/epics.go:287-362 | a CA message makes the device table take the sighting it justifies and the search tables its steps, and reports the events of the sighting |
| Epics.FoldPva | internal/device/epics.go:159-235 | the same for a PVA message |
| Epics.ServersAreObserved | internal/device/epics.go:325-333 | after a UDP reply or a beacon, CA or PVA, the sender of the frame holds the source address strongly |
| Epics.BuiltReplyIsFolded | internal/epics/ca/ca.go:379-388 | a built search reply, parsed, interpreted and folded in, credits its sender unless it falls into the classifier's overlap |
| Epics.BuiltResponseIsFolded | internal/epics/pva/pva.go:557-574 | a built PVA search response, parsed, interpreted and folded in, credits its server once for each of its ids that names a live search |
| Histories.CaReplyReachesSearch | internal/device/epics.go:333-347 | a found reply sent to the client of a live search with its id appends exactly one response, from its server, to that search, makes the server list the name, and changes no other search |
| Histories.CaStepSearch | internal/device/epics.go:301-347 | what any CA message does to the live search of any client and id: counted, begun, dropped as the oldest of a full table, answered, not found, or unchanged |
| Histories.CaSearchIsItsHistory | internal/device/epics.go:287-347 | after any messages every live search was begun by one of them, and since then has collected exactly the found replies to its client and id as responses and the others as not-found, in order |
| Histories.CaNamesAreAnswered | internal/device/epics.go:333-347 | after any messages a server lists a name if and only if one of its found replies answered a live search for it |
| Histories.CaServerIsItsHistory | internal/device/epics.go:325-377 | after any messages a server is on record exactly if it sent a reply or beacon, from the first to the last, with the number of its beacons |
| Histories.PvaReplyReaches | internal/device/epics.go:194-215 | a PVA reply adds itself to a live search of its addressee and sequence once for each time it lists the search's id |
| Histories.PvaChannelSought | internal/device/epics.go:167-191 | each channel of a PVA search that has a name is counted or begins a search under client, sequence and id |
| Histories.PvaSearchIsItsHistory | internal/device/epics.go:159-215 | the history law for PVA: every live search was asked for by some message, and has collected exactly what replies to it since then brought |
| Histories.PvaNamesAreAnswered | internal/device/epics.go:203-215 | a GUID lists a name if and only if one of its found replies answered a live search for it |
| Histories.PvaServerIsItsHistory | internal/device/epics.go:217-249 | the record of a GUID: first and last message, and the number of its beacons |
| Discovery.AnswerFoundOnTheWire | internal/device/epics.go:287-347 | end to end: a built CA search in one frame and a built reply in another, decoded and folded into any tables, leave the reply as the last response of the search and the name with the server |
| Discovery.PvaAnswerFoundOnTheWire | internal/device/epics.go:159-215 | the same for a built PVA search and response |
| Discovery.NotFoundTells | internal/epics/ca/ca.go:265-268 | a not-found message names its sender and the id |
| Discovery.BeaconMessages | internal/device/epics.go:345-352 | the beacon that a built CA beacon in a frame becomes for the tables |
| Discovery.PvaBeaconMessages | internal/device/epics.go:217-224 | the same for a built PVA beacon |
| Stream.ParsesExactly | internal/epics/ca/ca.go:149-172 | a parse succeeds with some messages if and only if the buffer is their nonempty encoding |
| Stream.ParseComposes | internal/epics/ca/ca.go:149-172 | a parsable buffer followed by a nonempty one parses to both lists |
| Stream.ErrorPrefixMaximal | internal/epics/pva/pva.go:181-205 | messages returned with an error are a maximal parsed prefix |
| Ca.CodecSound | internal/epics/ca/ca.go:104-172 | every CA message is read exactly from a buffer that starts with its encoding, extended headers included, so the stream laws hold |
| Ca.Parse | internal/epics/ca/ca.go:149-172 | the loop computes the specification, error and prefix included |
| Ca.SearchDatagram | internal/epics/ca/ca.go:352-374 | the bytes of the version and search messages |
| Ca.SearchReplyDatagram | internal/epics/ca/ca.go:379-388 | the bytes of a search reply |
| Ca.BeaconDatagram | internal/epics/ca/ca.go:391-402 | the bytes of a beacon |
| Ca.SearchRoundTrip | internal/epics/ca/ca.go:335-374 | for every name, id and reply flag of a built search come back, its name exactly when it is printable and has at most 512 bytes; nothing follows the search unless its name wraps the 16-bit size |
| Ca.NamesAreShort | internal/epics/ca/ca.go:335-348 | no message decodes to a longer or unprintable name |
| Ca.ReplyRoundTrip | internal/epics/ca/ca.go:243-264 | a built reply decodes as a response with its id, port and sender if and only if its id is not 0xffffffff or its port not 5 or 10 |
| Ca.BeaconRoundTrip | internal/epics/ca/ca.go:391-402 | a built beacon announces its port, id and server, IPv4-mapped forms included, the sender standing in for a missing one |
| Ca.ChannelMessagesTell | internal/epics/ca/ca.go:289-303 | a create-channel request names its channel exactly when printable and short enough, the response brings the server's id, access rights come back |
| Pva.CodecSound | internal/epics/pva/pva.go:127-205 | every PVA message of either byte order is read exactly from a buffer that starts with it |
| Pva.Parse | internal/epics/pva/pva.go:181-205 | the loop computes the specification, error and prefix included |
| PvaReader.Reader.Need | internal/epics/pva/pva.go:386-392 | a request beyond the payload fails the reader for good and moves nothing |
| PvaReader.Reader.Size | internal/epics/pva/pva.go:439-455 | one, five or no bytes of size, as specified |
| PvaReader.Reader.Str | internal/epics/pva/pva.go:457-463 | a size and that many bytes |
| PvaReader.Reader.Addr | internal/epics/pva/pva.go:465-471 | sixteen bytes, unmapped |
| PvaReader.Reader.Strs | internal/epics/pva/pva.go:299-301 | the loop reads the specified strings |
| PvaReader.Reader.Ids | internal/epics/pva/pva.go:323-326 | the loop reads the specified ids |
| PvaReader.Reader.Channels | internal/epics/pva/pva.go:302-312 | the loop reads the specified channels, stopping at a too long name |
| PvaReader.FieldsAreSticky | internal/epics/pva/pva.go:379-436 | the offset never leaves the payload; a failed reader stays put and reads zero |
| PvaReader.StringsAreSticky | internal/epics/pva/pva.go:439-485 | the same for sizes, strings and statuses |
| PvaReader.StrsBounded | internal/epics/pva/pva.go:294-301 | for any declared count at most len + 1 strings are read |
| PvaReader.IdsBounded | internal/epics/pva/pva.go:321-326 | for any declared count at most len/4 + 1 ids are read |
| PvaReader.ChannelsBounded | internal/epics/pva/pva.go:302-312 | for any declared count at most len/5 + 1 channels are read |
| PvaMessages.Interpret | internal/epics/pva/pva.go:283-368 | the reader-driven decoding computes the specification |
| PvaMessages.DecodedWorkBounded | internal/epics/pva/pva.go:283-368 | whatever counts a message declares, what is decoded is bounded by its bytes |
| PvaBuild.Writer.Size | internal/epics/pva/pva.go:495-502 | one byte below 254, else a marker and four bytes |
| PvaBuild.SearchDatagram | internal/epics/pva/pva.go:534-554 | the bytes of a search |
| PvaBuild.SearchResponseDatagram | internal/epics/pva/pva.go:557-574 | the bytes of a search response |
| PvaBuild.BeaconDatagram | internal/epics/pva/pva.go:577-588 | the bytes of a beacon |
| PvaBuild.SearchRoundTrip | internal/epics/pva/pva.go:534-554 | sequence, flags and port of a built search come back, its channel exactly when the name has at most 500 bytes, across the 254-byte size form |
| PvaBuild.ResponseRoundTrip | internal/epics/pva/pva.go:557-574 | with at most 65535 ids GUID, ids, port and server come back, an absent or zero address standing for the sender |
| PvaBuild.ManyIdsLost | internal/epics/pva/pva.go:565-572 | with more than 65535 ids they never come back |
| PvaBuild.BeaconRoundTrip | internal/epics/pva/pva.go:577-588 | GUID, sequence, change count, port and server of a built beacon come back |
| PvaOrders.ResponseEitherOrder | internal/epics/pva/pva.go:315-327 | a search response in the byte order its header flags announce, big-endian or little-endian, with any protocol name, parses and decodes to what the server wrote |
| PvaOrders.BeaconEitherOrder | internal/epics/pva/pva.go:328-336 | the same for a beacon |
| Prompt.TypeAheadNeverAnswers | cmd/wirepup/prompt.go:53-146 | in every interleaving, an answer to a request taken after some point is the first line typed from a position not before anything typed by then, minus one trailing CR, and has at most 253 bytes |
| Prompt.AnswerFollowsFlush | cmd/wirepup/prompt.go:63-103 | an answer is exactly the first line typed after the flush that ended the discard for its request |
| Prompt.NoByteAnswersTwice | cmd/wirepup/prompt.go:98-103 | of two answered calls, the first one's line ended before the flush for the second |
| Prompt.ShortLineDelivered | cmd/wirepup/prompt.go:98-103 | a line of at most 253 bytes is delivered whole once it has been read |
| Prompt.LongLineRejected | cmd/wirepup/prompt.go:104-113 | a longer line ends the interaction at its 254th byte with nothing delivered |
| Prompt.SilentAfterEnd | cmd/wirepup/prompt.go:104-113 | after an overlong line or any error nothing is delivered any more |
| Prompt.StepKeepsInv | cmd/wirepup/prompt.go:53-146 | every step of reader, caller or user keeps the collected line equal to what was typed since the flush |
| Prompt.PromptInput.Discard | cmd/wirepup/prompt_unix.go:20-53 | whatever it reports, nothing queued survives it; it succeeds exactly when the queue was seen empty before any error |
| Prompt.PromptInput.TakeRequest | cmd/wirepup/prompt.go:63-73 | a request starts with an empty line after a flush of all that was typed before |
| Prompt.PromptInput.TakeByte | cmd/wirepup/prompt.go:95-114 | a newline delivers the line, a 254th byte rejects it and flushes the rest, any other byte is kept or ignored |
| Prompt.PromptInput.Loop | cmd/wirepup/prompt.go:53-116 | the whole loop is a run of the protocol, does turn by turn what each turn meets up to the first error, and all it delivers are lines typed after the flush for their request |
| Prompt.OfferedRequestIsAnswered | cmd/wirepup/prompt.go:53-116 | progress: if an offered request's discard succeeds, the prompt is shown and a line of at most 253 bytes is typed and read, the line is delivered for it, whatever was queued or collected before |
| Ranges.Hosts | internal/active/active.go:108-130 | ascending, exactly the usable hosts: all but network and directed broadcast, both ends of a /31 (RFC 3021, section 2.1), the one of a /32; larger prefixes than /24 are refused |
| Ranges.DirectedBroadcastIsLast | internal/active/ca.go:144-152 | the directed broadcast is the greatest address of the prefix |
| Ranges.DirectedBroadcastFits | internal/active/ca.go:148-150 | or-ing the host mask onto the network address gives network plus span minus one |
| Ranges.BroadcastDestinations | internal/active/ca.go:156-164 | exactly the directed broadcasts of the prefixes, each recognized as broadcast |
| Ranges.SweptHostsAreUnicast | internal/active/ca.go:130-140 | no swept host is the directed broadcast of its prefix |
| Ranges.UsedAddresses | internal/diagnose/diagnose.go:231-246 | the loops collect exactly the observed, local and gateway addresses |
| Ranges.Candidate | internal/diagnose/diagnose.go:247-257 | the countdown returns the first unused address from the top |
| Ranges.CandidateIsGreatestFree | internal/diagnose/diagnose.go:231-258 | the candidate is the greatest unused host of the prefix, and there is none only if every host is used |
| Ranges.AcceptedIffFreshHost | cmd/wirepup/cmd_active.go:357-372 | an address is accepted exactly when it is a usable host of its prefix and not configured yet |
| Ranges.CandidateNeverRefused | internal/diagnose/diagnose.go:194-195 | what diagnosis recommends, for the assumed /24 and any other prefix up to /30, connect never refuses |

## Left out

- Sockets, netlink and flock system calls, subprocess execution, PCAP files: their results are nondeterministic answers.
- JSON, text and TUI rendering, finding wording, timeline texts, flag parsing and the parsing of protocol names: string formatting.
- Real time: timestamps are integers, timeouts are choices, the send rate is not modelled.
- Field parsing of ARP, LLDP, IPv6, ICMPv6 and DHCP: `Decode.Parsers` stands for what those parsers accept, and the device table takes the fields it uses.
- Kernel-filter completeness for ca, pva and ndp: the decoder also recognizes CA and PVA by structure on other ports and follows IPv6 extension headers, which the filters do not claim to cover.
- MACs, destinations, ports and beacon counters kept beside searches, servers and responses: each is copied from one message and enters no law.
- DHCP transactions, device names, vendors, via labels, VLANs, protocol labels and LLDP neighbors: one-field records beside the correlation, with no property that spans them.
- Validation, byte-order and create-channel builders of the PVA codec: they follow the same pattern as the datagrams that are modelled. Their decoding is modelled (`PvaMessages.Interpret`), without a round trip.
- OUI lookup, interface enumeration, completion and install scripts.
- Diagnosis rules other than the recommended address: one-branch report builders.
- `net/netip` text forms and formatted map keys: tuples stand for the keys.
- The process deaths the lock survives are modelled as a step that releases it; retries of the lock within its timeout are not counted.
- SessionManager.Manager.RemoveOwned: takes an inspection to be accurate and a cascade to be whatever ip did, because a manager knows no table; HostSession.Host.RemoveOwned derives both from a kernel table.
- HostSession.Host.RemoveOwned: assumes one entry per address on the interface and no outside change between inspection and deletion, without which ProtectedIffGuarded shows what can go wrong.
- Cleanup.Guide.Cleanup: other processes act before and after it (Manager.Meanwhile), not between its removals, where they could undo any of them.
- Session.CrashSafeRecording: assumes interface names are stable and `Present` accurate, as Remove itself does.
