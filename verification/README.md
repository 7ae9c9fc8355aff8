# serialusb: a verified model

serialusb puts a PC between a USB device and a target host. The PC proxy talks to the real device through libusb; an
AVR board shows the same device to the target host; a 500 kbps UART joins the two. This project models both machines,
the line between them and the start-up work that makes them agree, and proves what the pair promises: reports arrive
complete, in order and in a bounded number of steps, both sides hold the same descriptors, endpoint numbers are translated
consistently, and replies reach the request they answer. Where the code does not keep such a promise, the exact condition
under which it does is proved, with an input or a run that fails.

Verify everything with `dafny verify dfyconfig.toml` (Dafny 4.11).

## How it is built

| Layer | Files |
|---|---|
| packets and bytes | `Protocol`, `Adapter` (splitter and incremental decoder, with the `SerialAdapter` object), `Lanes` |
| the two machines as functions of their state | `Proxy` (what each PC callback does), `Firmware` (the serial interrupt) |
| the same machines in place | `ProxyProcess` (class `PcProxy`), `Board` (class `Emulator`), proved against those functions |
| every interleaving, packet by packet | `System` (steps), `Runs`, `Invariant`, `Effects`, `StartUpProof`, `FlowProof`, `ExchangeProof`, `Preservation`, `Guarantees` (safety), `Progress` (what happens in the end), `Requests`, `LateReplies` |
| every interleaving, byte by byte | `Wire`, `WireProof` (each byte-level step is a packet-level step or none), `WireComplete` (each packet-level step is a series of byte-level ones) |
| start-up on the PC | `RawConfig` (descriptor parser), `Renumber`, `RenumberProof`, `TablesProof`, `Polling`, `FixEndpoints` (the loops of fix_endpoints in place), `RepeatedAddress` (a device that repeats an address), `DescriptorTable` (packing and lookup) |
| from a device to the running proxy | `Composition` |
| control requests on the wire | `ControlRequest` |
| containers | `TransferTable` (libusb transfers), `RingBuffer`, `RingInterleaving` (LUFA's ring buffer) |

The step system has one step per libusb completion, per packet the PC takes, per packet the interrupt takes, and one
per memory access of the firmware's main program that the interrupt may separate. The interrupt is one step at packet
level; at byte level it takes the line byte by byte while the main program stands still. `Inv` in `Invariant.dfy` is the
inductive invariant of that system, one predicate per concern.

## Assumptions

- The UART loses, changes and reorders nothing, and a read never returns more bytes than were last requested
  (`Respects` in `Adapter`, `Possible` in `Wire`).
- Setup and data of a control request take at most 254 bytes, as the limitations in the repository's README state
  (`RequestOk` in `System`). `ControlRequest` shows that the code does not enforce this limit and what happens beyond it.
- Endpoint numbers are not zero, reserved address bits are zero, and a configuration has fewer than 256 endpoint descriptors
  (`PlainEndpoints` in `TablesProof`). In the first configuration, no two endpoint descriptors that are configured on the
  target, in whatever alternate settings, have the same address (`Addressed`, used by `Supported` in `Composition`); what
  happens otherwise is under Findings.
- Descriptors follow each other exactly up to the announced total length and have at least the sizes of sections 9.6.5
  and 9.6.6 of USB 2.0 (`WellFormed` in `RawConfig`).
- In the step system, libusb and the serial line accept what they are given, and libusb completes only transfers it has; an
  IN transfer returns at most 64 bytes and a control transfer at most 254, which the callbacks check. The routines of
  `ProxyProcess` and `Adapter` are also proved for calls that fail.
- The matching of replies holds as long as no request has been given up while its packet, its transfer or its reply was
  under way (`abandoned` in `System`). A request given up after that, because the PC had nothing to answer, does no harm.

## Findings

- The firmware's guard on control requests looks at wLength alone. A host-to-device request with 247 to 254 bytes of
  data passes it, but the length byte is an 8-bit sum, so what follows is not a packet: `ControlRequest.OnePacketIff`
  gives the exact condition, `OverlongExample` a concrete request, `OverlongIsMisread` what the PC makes of it.
- The firmware's lookup stops at the first index entry whose wValue is zero: `DescriptorTable.LookupAgreesIff` shows
  that it agrees with the list of descriptors on every key exactly when no descriptor has wValue zero. Strings are filed under
  0x03xx; only a HID descriptor that announces a class descriptor of type zero leads to such an entry.
  `Composition.DescriptorsAgreeIff` states the condition on the device, and `Composition.TypeZeroHides` what such a device
  loses: that descriptor and everything fetched after it.
- Nothing correlates a reply with its request. `LateReplies.MistakenIff`: giving up a request can make the firmware take a
  reply for the answer to another request exactly when the packet, the transfer or the reply of the request given up is still
  under way. `LateReplies.MistakeIsReachable` and `WireComplete.MistakeOnTheWire` show that this happens in some run, for
  every set-up, packet by packet and byte by byte.
- A transfer that the transfer table cannot take for lack of memory is never freed: `TransferTable.LostIsNeverFreed`. By
  `TransferTable.SubmittedIsKeptIff`, a submitted transfer ends under way or freed exactly when the table could grow for it.
- fix_endpoints does not look at how many entries it has made, nor whether an address has occurred before.
  `FixEndpoints.RoundsFitIff`: the list of six entries is not overrun exactly when at most six usable endpoint descriptors occur,
  counted with repetition. `RepeatedAddress.ListGrows` gives the bytes of configurations that overrun it, with seven or more
  alternate settings of one interrupt endpoint. `TablesProof.BijectionIff`: the tables are mutually inverse, and no number is
  listed twice, exactly when no address of usable endpoints is repeated.
- EVENT_USB_Device_ConfigurationChanged appends to the list of OUT endpoints without emptying it, so that a second such event
  lists them twice; `Board.Emulator.ConfigurationChanged` says exactly when the list of six is overrun.

## Model

| member | source | states |
|---|---|---|
| Adapter.SplitReassembles | sw/adapter.c:92-122 | the values of the packets a send emits concatenate to the data, all under the given type, none under another |
| Adapter.SplitCount | sw/adapter.c:101-119 | one packet for up to 254 bytes (also for none), otherwise exactly as many as needed, all full but the last |
| Adapter.SerialAdapter.Send | sw/adapter.c:92-122 | the send loop terminates and writes the encoding of exactly those packets, or of the first ones up to a write that fails; a null pointer with a length writes nothing |
| Adapter.SerialAdapter.Recv | sw/adapter.c:49-90 | one call changes the packet buffer, requested size and callbacks as one step of the decoder, error returns included |
| Adapter.RecvStepSound | sw/adapter.c:59-89 | a read within the requested size never overruns the packet or underflows the remaining count: it stays inside the first packet or delivers exactly that one |
| Adapter.DecoderPrefix | sw/adapter.c:49-90 | for any cut into reads, the packets delivered so far are the first ones of the stream and the decoder holds the beginning of the next |
| Adapter.DecoderRoundTrip | sw/adapter.c:49-90 | a stream read to its end is delivered packet for packet, once each, in order; the critical-error branch is not reached and every requested size is positive |
| Adapter.SendThenReceive | sw/adapter.c:49-122 | splitting, any cut into reads and decoding give the data back |
| ProxyProcess.PcProxy.SendNextInPacket | sw/proxy.c:86-104 | the queue, shifted in place, the pending mark and the packet sent are those of the flow-control function; if the send fails, queue and mark stay as they were |
| ProxyProcess.PcProxy.QueueInPacket | sw/proxy.c:106-125 | refuses exactly when the queue is full, otherwise fills the slot of the endpoint under its translated address and queues it last |
| ProxyProcess.PcProxy.InTransferEnded | sw/proxy.c:127-184 | an ended IN transfer is queued and sent on, ignored, or ends the proxy, by its status and size; a failing send ends the proxy with the report queued |
| ProxyProcess.PcProxy.ControlTransferEnded | sw/proxy.c:142-216 | a read that ends well sends its data, a write an empty packet; a stall, and the timeout of a read, send a stall; the timeout of a write and an error send nothing; with the return value, and when the proxy is ended |
| ProxyProcess.PcProxy.SendControlPacket | sw/proxy.c:535-553 | a setup with bytes 0x80, 6 and wValue 0x06xx is stalled at once, every other request is submitted, translated; a failing send or submission leaves no transfer and no reply |
| ProxyProcess.PcProxy.PollAllEndpoints | sw/proxy.c:515-526 | the loop polls the non-zero cells of the IN row from the cell before it on, and stops at the first poll that fails |
| ProxyProcess.PcProxy.ProcessPacket | sw/proxy.c:567-627 | the whole state and the packets sent after each packet type; the proxy is ended exactly by RESET, an empty OUT packet or a call that fails |
| Board.Emulator.SerialInterrupt | fw/emu.c:90-129 | each label stores its bytes in place, moves its cursor, sets its flags and acknowledges as the step model says; a memory is overrun exactly when the packet is longer than the room left; unknown types leave everything but the header on the line |
| Board.Emulator.SendNextInput | fw/emu.c:252-269 | the report handed over is the endpoint and the bytes of the slot, the slot is freed and one acknowledgement sent, or nothing happens; it reads past the slot exactly for a length above 64 |
| Board.SendNextInputIsARun | fw/emu.c:252-269 | run without interruption, the fine-grained steps give that same report and state |
| Board.Emulator.ConfigurationChanged | fw/emu.c:167-179 | at every such event, the interrupt entries up to the first unused one are set up with number, type and size, and the OUT ones are appended to the OUT list, in order, which is overrun exactly when it would exceed six |
| Board.Emulator.SelectOutput | fw/emu.c:271-285 | the entries of the OUT list are taken in turn; as long as it is that of one configuration event, they are the OUT endpoints in order |
| Board.Emulator.ReceiveNextOutput | fw/emu.c:285-311 | a report not longer than the size of the entry is sent whole, a longer one up to that size, as one packet under the number of the entry; nothing is sent for an empty bank or a stream that cannot be read |
| Board.ReceiveNextOutputIsAStep | fw/emu.c:303-307 | that packet is the one a step of the model sends, for every OUT endpoint and every report of 1 to 64 bytes |
| Board.Emulator.UnhandledControlRequest | fw/emu.c:200-250 | the bytes transmitted; of the packets that arrive in time, the first reply decides: its data answers a read, an empty status a write, a stall packet stalls; without one the request is given up |
| Board.WaitIsARun | fw/emu.c:226-227 | the wait is a run of the interrupt, one step for each packet up to the first reply |
| Board.ControlRequestIsARun | fw/emu.c:209-224 | for a request within the limit, the fine-grained steps put on the line exactly the bytes the routine transmits, with the flags reset first |
| Board.ReplyIsConsumed | fw/emu.c:229-247 | what the routine does with a reply is decided by exactly the reply that the steps consume |
| Preservation.StepKeepsInv | fw/emu.c:90-129 | every step of the PC, the interrupt and the main program keeps the whole invariant |
| Preservation.RunKeepsInv | sw/proxy.c:567-627 | the invariant holds in every state of every run |
| Guarantees.ReportsInOrder | sw/proxy.c:86-184 | reports delivered, then the one in flight, then the queued ones are the successful IN transfers in completion order, translated; nothing lost, duplicated, reordered or altered |
| Guarantees.StepRefinesFifo | fw/emu.c:252-269 | each step of the system is a put, a take or no step of a plain FIFO channel of reports |
| Guarantees.OneToken | sw/proxy.c:586-592 | inPending is set exactly while there is one IN packet on the line, one occupied slot, or one acknowledgement due or on the line |
| Guarantees.SlotIsFree | fw/emu.c:125-128 | when the interrupt takes an IN packet, the slot is empty and nobody is reading it, and the packet fits and names an endpoint |
| Guarantees.EndpointsConserved | sw/proxy.c:54-60 | after start-up every configured IN endpoint is in exactly one of polled, queued, pending, stalled |
| Guarantees.QueueNeverFull | sw/proxy.c:106-118 | a completing transfer always finds room, and its slot is not in use by a queued endpoint |
| Progress.TokenReturns | sw/proxy.c:586-592 | while a report is pending, a bounded number of steps without any event from USB delivers it, makes its endpoint polled again and the next queued report pending |
| Progress.ReportsDrain | fw/emu.c:252-269 | from every reachable state such steps alone deliver every report the device has given, in order, after which every endpoint that has not failed is polled |
| Guarantees.StartUpAgreement | fw/emu.c:99-111 | when the firmware has started, its three memories hold the PC's bytes, zero-padded; polling starts at most once and not before |
| Progress.DeliveryWorks | sw/proxy.c:573-585 | until the endpoints are polled, a packet is on the line, and taking any packet, on either side, brings start-up strictly closer to its end |
| Progress.StartUpCompletes | fw/emu.c:99-111 | from every state before that, a bounded number of packets taken leads to polling and a started firmware |
| Guarantees.OneTransmitter | fw/emu.c:84-111 | the interrupt transmits only before started is set, the main program only after |
| Guarantees.OverwritingSendsAreSingle | sw/proxy.c:94-165 | every send of a type the interrupt stores from the start of its memory is one packet |
| Guarantees.RepliesMatch | fw/emu.c:200-250 | no request gets two replies, and every reply acted on for request k is the one sent for request k, as long as no request was given up while under way |
| Guarantees.AbandonsIff | fw/emu.c:226-233 | giving up a request counts as that exactly when its packet, its transfer or its reply is under way |
| Guarantees.OutsInOrder | sw/proxy.c:528-533 | writes to the device, then those still on the line, are the OUT packets of the firmware in order, translated |
| Requests.DeviceIsAsked | sw/proxy.c:535-553 | requests reach the PC in order, and every control transfer carries the translated request of its number, never one with bytes 0x80, 6 and wValue 0x06xx |
| Requests.ControlPacketOutcome | sw/proxy.c:544-552 | a received request with those bytes gives one stall packet and no transfer, any other one transfer and no packet |
| Requests.ControlEndSends | sw/proxy.c:127-216 | what the end of a control transfer sends, by direction and way of ending |
| Requests.RequestIsServed | sw/proxy.c:535-553 | every received request is at the device, or has ended there and been answered if its end calls for it, or was stalled for those bytes |
| Requests.AnswersReachTheirRequest | sw/proxy.c:127-216 | as long as no request was given up while under way, the reply acted on for request k has the data, or the stall, with which the transfer of request k ended, or is the forced stall |
| LateReplies.MistakenIff | fw/emu.c:226-250 | after a request is given up, the firmware may act on a reply that is not the one to the request being served exactly when something of the request given up is still under way |
| LateReplies.MistakeIsReachable | fw/emu.c:226-250 | for every set-up some run contains that mistake |
| WireProof.StepSimulated | fw/emu.c:73-129 | each byte-level step is one packet-level step or none |
| WireProof.WireRefines | sw/adapter.c:49-90 | every byte-level run carries a packet-level run |
| WireProof.WireIsFramed | fw/emu.c:62-111 | both byte streams are whole packets at every moment, and no memory is overrun and no decoder error reached |
| WireProof.WireReportsInOrder | sw/proxy.c:86-184 | reports delivered, the one that the bytes on the line or the slot hold, and the queued ones are the successful IN transfers, translated, in order |
| WireProof.WireOutsInOrder | sw/proxy.c:528-533 | writes to the device, then what the bytes on the line stand for, are the OUT packets of the firmware in order, translated |
| WireProof.WireStartUpAgreement | fw/emu.c:99-111 | the agreement of the memories, byte by byte |
| WireProof.WireRepliesMatch | sw/proxy.c:186-216 | the matching of replies, byte by byte, under the same condition |
| WireComplete.WireReaches | sw/adapter.c:49-122 | every packet-level state of every run is carried by a byte-level one, with no packet unfinished |
| WireComplete.MistakeOnTheWire | fw/emu.c:226-250 | the late reply taken for another one happens byte by byte |
| RawConfig.Configuration.Probe | sw/lib/gasync/src/usb/gusb.c:671-739 | the pointer walk terminates and builds exactly the tree of the parser, or fails as it does |
| RawConfig.Configuration.ProbeInterface | sw/lib/gasync/src/usb/gusb.c:550-577 | a bad interface number is refused, otherwise one alternate setting is appended |
| RawConfig.Configuration.GetInterface | sw/lib/gasync/src/usb/gusb.c:579-599 | succeeds exactly when there is a current interface whose two numbers exist |
| RawConfig.Configuration.ProbeEndpoint | sw/lib/gasync/src/usb/gusb.c:637-653 | the endpoint is attached to the current alternate setting, last |
| RawConfig.ParseIsNearest | sw/lib/gasync/src/usb/gusb.c:550-599 | with settings in order, each alternate setting has exactly the endpoint descriptors up to the next interface descriptor, in byte order |
| RawConfig.ParseConserves | sw/lib/gasync/src/usb/gusb.c:637-653 | every endpoint descriptor of the chain is in the tree exactly once, whatever the setting numbers |
| RawConfig.ParseSucceeds | sw/lib/gasync/src/usb/gusb.c:695-735 | with settings in order, parsing fails exactly on a bad interface number or an endpoint or HID descriptor without interface |
| RenumberProof.RewritingCommutesWithParsing | sw/proxy.c:374-391 | the rewritten configuration parses to the same tree; only address bytes may differ, directions stay, and endpoints keep their address or are numbered in tree order |
| TablesProof.KeepsNumbersIff | sw/proxy.c:310-360 | numbers are kept exactly when the target has each of them, no endpoint is bulk or isochronous, and no number is used in both directions |
| TablesProof.TranslationIsABijection | sw/proxy.c:399-428 | the two tables are mutually inverse and keep directions; exactly the usable endpoints are translated, to their new address, and described in the list |
| TablesProof.BijectionIff | sw/proxy.c:399-428 | the tables are mutually inverse and no number is listed twice exactly when no two usable endpoint descriptors have the same address |
| TablesProof.ListIsEntered | sw/proxy.c:423-428 | repeated addresses or not, the list has one entry for each usable endpoint descriptor, in tree order |
| RepeatedAddress.ListGrows | sw/proxy.c:362-433 | the bytes of a configuration with n alternate settings of one interrupt endpoint: numbers are kept, n entries are made, and they fit exactly up to six |
| TablesProof.ListFitsTarget | sw/proxy.c:348-428 | at most six entries in either mode, with different numbers from 1 to 6, of the interrupt type and at most 64 bytes |
| FixEndpoints.CompareEndpointProperties | sw/proxy.c:348-360 | renumbering is asked for exactly when some number has a property the target lacks |
| FixEndpoints.GetEndpointProperties | sw/proxy.c:310-346 | the nested loops collect the properties of every endpoint of the configuration |
| TablesProof.AddressedFits | sw/proxy.c:399-428 | without repeated addresses of usable endpoints, they are never more than six |
| FixEndpoints.RoundsFitIff | sw/proxy.c:423-428 | no array is overrun exactly when the usable endpoint descriptors, counted with repetition, are at most six |
| FixEndpoints.EndpointTables.FixEndpoint | sw/proxy.c:387-428 | one round rewrites the address in place, and enters the endpoint in the tables or skips it, whenever the entry array has room for what it enters |
| FixEndpoints.EndpointTables.FixConfigurationAt | sw/proxy.c:367-431 | the nested loops over one configuration compute the folded result, whenever the entry array is not overrun |
| FixEndpoints.EndpointTables.FixAll | sw/proxy.c:362-433 | every configuration is rewritten in place, and the tables are those of the first one, repeated addresses included |
| Polling.PollingIsExact | sw/proxy.c:515-526 | start-up polls each configured IN endpoint of the device exactly once and nothing else |
| Polling.CellBeforeRow | sw/proxy.c:46-52 | the cell before the IN row reads zero |
| Polling.FirmwareFindsOuts | fw/emu.c:167-179 | in the zero-padded list, the firmware finds exactly the OUT endpoints, in order |
| Polling.FirmwareListsOuts | fw/emu.c:176-178 | its OUT list holds the places of exactly the entries with a number below 128, increasing |
| Polling.FirmwareSetsUp | fw/emu.c:170-174 | a list of entries of type 3 is set up entry for entry, with number, type and size |
| Firmware.ResetResets | fw/emu.c:112-114 | only a RESET packet resets the firmware |
| DescriptorTable.Packer.AddDescriptor | sw/proxy.c:435-452 | appends bytes and index entry in place, or fails and changes nothing |
| DescriptorTable.Packer.AddDescriptors | sw/proxy.c:454-483 | packing a list succeeds exactly when it has at most 32 descriptors of at most 1024 bytes in all |
| DescriptorTable.AddAllPacks | sw/proxy.c:435-452 | the packed table has one entry per descriptor, in order, and each entry locates its bytes |
| DescriptorTable.GetDescriptor | fw/emu.c:181-193 | the loop over the index memory returns the result of the lookup function |
| DescriptorTable.HeldEntry | fw/emu.c:181-187 | reading the little-endian, zero-padded index back gives the entries that were written, and zeros behind them |
| DescriptorTable.LookupIsFirstMatch | fw/emu.c:181-193 | a lookup gives the bytes of the first descriptor added under its key, or nothing, in the list up to the first zero wValue |
| DescriptorTable.LookupAgreesIff | fw/emu.c:185-191 | lookup and list agree on every key exactly when no descriptor has wValue zero |
| ControlRequest.OnePacketIff | fw/emu.c:62-71 | what is transmitted for a request is one packet exactly unless it carries 247 to 254 bytes to the device |
| ControlRequest.OverlongExample | fw/emu.c:200-224 | 250 bytes of data: the length byte says 2 and 258 bytes follow |
| ControlRequest.OverlongIsMisread | fw/emu.c:62-71 | what the PC takes such bytes for |
| Composition.SetUpIsOk | sw/proxy.c:362-513 | whatever the device, a set-up that fits meets everything the running proxy relies on |
| Composition.SetUpSucceeds | sw/proxy.c:454-491 | it fits exactly when the descriptors take at most 1024 bytes and are at most 32 |
| Composition.DescriptorsAgreeIff | fw/emu.c:181-193 | the started firmware answers every key as the device's list does, exactly when no interface announces a HID class descriptor of type zero |
| Composition.FetchedIsAnswered | sw/lib/gasync/src/usb/gusb.c:507-548 | string i in language l is answered under 0x300 + i and l, and a class descriptor under its type and interface, unless an earlier descriptor has that key or one of type zero comes first |
| Composition.TypeZeroHides | sw/lib/gasync/src/usb/gusb.c:601-635 | at a device that does, neither that descriptor nor anything fetched after it is found, under a key that nothing before has |
| Composition.WireDescriptorsAgreeIff | fw/emu.c:181-193 | the same agreement, byte by byte |
| Composition.DeviceIsAnswered | sw/proxy.c:458-466 | device descriptor and language list are answered with the device's own |
| Composition.ConfigurationIsAnswered | sw/proxy.c:468-475 | configuration i is answered with configuration i, rewritten |
| Composition.WireConfigurationIsAnswered | sw/proxy.c:468-475 | the same, byte by byte |
| Composition.SentConfigurationParses | sw/proxy.c:468-475 | that answer parses to the same interfaces, settings and endpoint places as the device's configuration |
| Composition.ListIsSetUp | fw/emu.c:167-179 | the started firmware sets up exactly the endpoint list of the PC, and lists exactly its OUT entries |
| Composition.EndpointIsSetUp | fw/emu.c:171-173 | every usable endpoint of the device is set up with its new address, as interrupt endpoint, with its own size |
| Composition.WireListIsSetUp | fw/emu.c:167-179 | the set-up of the list, byte by byte |
| Composition.ReportsComeFromTheirEndpoint | sw/proxy.c:113-118 | the k-th report is the k-th IN transfer, on an IN endpoint from 1 to 6 that translates back to the device's |
| Composition.WireReportsComeFromTheirEndpoint | sw/proxy.c:113-118 | the same, byte by byte |
| Composition.OutsReachTheirEndpoint | sw/proxy.c:528-533 | the k-th write is the k-th OUT packet, to the configured OUT endpoint its number stands for |
| Composition.WireOutsReachTheirEndpoint | sw/proxy.c:528-533 | the same, byte by byte |
| Composition.SetupNamesTheirEndpoint | sw/proxy.c:537-542 | a request to a configured endpoint names the device's endpoint; nothing else in a request changes |
| TransferTable.ApplyAllKeepsBalance | sw/lib/gasync/src/usb/gusb.c:80-118 | over any submissions, failures and ends: no duplicates, exact counters, nothing freed twice, while in the table or after being refused |
| TransferTable.ApplyAllConserves | sw/lib/gasync/src/usb/gusb.c:246-262 | every submitted transfer is in the table, freed, or refused by it, once and in exactly one of these ways |
| TransferTable.SubmittedIsKeptIff | sw/lib/gasync/src/usb/gusb.c:246-262 | whatever follows, a submitted transfer ends in the table or freed exactly when the table could grow for it |
| TransferTable.LostIsNeverFreed | sw/lib/gasync/src/usb/gusb.c:246-262 | a transfer the table refused is never freed and never enters it |
| TransferTable.NothingLostIff | sw/lib/gasync/src/usb/gusb.c:80-98 | over any sequence, nothing is lost exactly when the table could grow at every submission |
| TransferTable.SubmitOutcome | sw/lib/gasync/src/usb/gusb.c:246-262 | a submitted transfer is under way exactly when table and libusb take it; refused by libusb it is freed and everything else is as before |
| TransferTable.EndOutcome | sw/lib/gasync/src/usb/gusb.c:264-311 | the end of a transfer frees it and takes only it out of the table, and counts its device down |
| TransferTable.WithoutKeepsOrder | sw/lib/gasync/src/usb/gusb.c:100-118 | removal takes out one entry and keeps the order of the others |
| TransferTable.DrainedIff | sw/lib/gasync/src/usb/gusb.c:1161-1167 | a counter is zero exactly when no entry belongs to the device |
| TransferTable.Transfers.Add | sw/lib/gasync/src/usb/gusb.c:80-98 | adds at the end unless present, and counts; a failed realloc changes nothing |
| TransferTable.Transfers.Remove | sw/lib/gasync/src/usb/gusb.c:100-118 | shifts, counts down and frees once, if present |
| TransferTable.Transfers.SubmitTransfer | sw/lib/gasync/src/usb/gusb.c:246-262 | a transfer libusb refuses is out of the table again and freed |
| TransferTable.Transfers.Cancel | sw/lib/gasync/src/usb/gusb.c:1151-1168 | cancels each transfer of the device, in table order, and no other; if the drain loop ends with the counter at zero, none of them is left |
| RingBuffer.Ring.Insert | fw/LUFA/Drivers/Misc/RingBuffer.h:240-256 | appends one element when not full |
| RingBuffer.Ring.Remove | fw/LUFA/Drivers/Misc/RingBuffer.h:269-286 | returns and drops the oldest element |
| RingBuffer.Ring.GetCount | fw/LUFA/Drivers/Misc/RingBuffer.h:166-177 | the number of stored elements, at most the size |
| RingBuffer.Ring.GetFreeCount | fw/LUFA/Drivers/Misc/RingBuffer.h:192-195 | the size less that number |
| RingBuffer.Ring.Peek | fw/LUFA/Drivers/Misc/RingBuffer.h:295-298 | returns the oldest element |
| RingBuffer.Ring.IsFull | fw/LUFA/Drivers/Misc/RingBuffer.h:226-229 | true exactly when size elements are stored |
| RingBuffer.Ring.IsEmpty | fw/LUFA/Drivers/Misc/RingBuffer.h:210-213 | true exactly when none is stored |
| RingBuffer.Ring.constructor | fw/LUFA/Drivers/Misc/RingBuffer.h:132-149 | an initialised buffer is empty |
| RingInterleaving.RemovedIsPrefix | fw/LUFA/Drivers/Misc/RingBuffer.h:240-286 | in every interleaving of the split Insert and Remove, removed bytes are a prefix of inserted ones and the rest is in its cells |
| RingInterleaving.WritesAreFree | fw/LUFA/Drivers/Misc/RingBuffer.h:240-286 | no write hits an unread cell, no read a cell without its byte, and no pointer leaves the buffer |
| RingInterleaving.MoveKeepsInv | fw/LUFA/Drivers/Misc/RingBuffer.h:240-286 | each memory access of either side keeps the invariant |

## Left out

- libusb, the asynchronous serial code and the timers: transfers end in any order and way, the line is a FIFO of bytes; submissions and writes that fail are in the contracts of the routines, not among the steps of the system.
- RESET, `done` and the teardown of both sides: a run ends when `done` is set; the system theorems show that it is not set by the traffic they cover.
- The one-second start-up timer and the device selection, option parsing, printing and dumping.
- Fetching of string and HID class descriptors: what was fetched enters as the list `others`, each under the request it was fetched with; of probe_hid itself only the check for an interface is modelled.
- The `unsigned char` counters of settings and endpoints: they wrap at 256, which a configuration that fits the 1024-byte descriptor memory cannot reach.
- Endpoints with number zero: get_endpoint_properties would index outside its array for them.
- Repeated SET_CONFIGURATION events in the step system, where the firmware looks at each OUT endpoint without an order; `Board` has them.
- The 50 ms as a time: a request may be given up at any moment before its reply has come in.
- Control packets shorter than a setup packet, and wIndex values with a non-zero high byte for endpoint recipients: the code reads stale bytes and outside the table; the model leaves the packet as it is and reads zero.
- Endpoint banks, stream errors and control stages of the USB controller: what a bank holds and whether a stream works are parameters of the firmware routines, and a report counts as delivered when its bank is handed over.
- Compiler reordering around the non-volatile `input`, UART overruns and baud rate.
- LUFA's ConfigDescriptors search functions: host-mode code that neither program calls.
- Several adapters at once and the adapter handle check.
- Board.Emulator.SerialInterrupt: a packet whose length byte is 255, which no sender produces, is not modelled; the model ends where a memory is overrun.
- ProxyProcess.PcProxy.InTransferEnded: libusb's own list of polled transfers is shortened by the step of the system, not by the callback.
