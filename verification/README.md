# Verified model of the eBPF intrusion detector and its companions

The repository combines libbpf example programs with a network intrusion detector: an XDP program that counts packets
per source, detects SYN floods and port scans and drops blacklisted sources; a loader that reports rates and alerts to
a backend over a Unix socket; a cleaner that empties the kernel maps; and a sampling script for the training data. This
project models the parts with real state and proves what they guarantee over whole runs, in Dafny 4.11.
`dafny verify dfyconfig.toml` checks all of it.

## What is modelled

| file | part of the system |
|---|---|
| Common.dfy | addresses, capacity-bounded BPF hash maps and the key sets they admit, division facts |
| PortBitmap.dfy | the sixteen 64-bit words of `struct port_bitmap` as a set of ports |
| DataPlane.dfy | `xdp_firewall` and its three helpers, one packet per step |
| Frames.dfy | header layouts (section 3.1 of RFC 791, section 3.1 of RFC 9293) against the fixed offsets the program reads |
| Traces.dfy | closed forms and alert guarantees over whole packet traces |
| Segments.dfy | the same on what is on the wire: segments with their flags and ports, other datagrams, other frames |
| Isolation.dfy | independence of the sources, conservation of packets and bytes |
| FlowRace.dfy | `pkt_count++` interleaved between CPUs |
| MapCleaner.dfy | `clean_map` over `bpf_map_get_next_key` |
| ScanWalk.dfy | walking a map key by key while keys are deleted from it |
| RateReporter.dfy | the loader's linked-list cache, `report_flow_rate`, `read_and_report_stats` |
| Detector.dfy | packets, deletions and readings in one step machine |
| Text.dfy, Framing.dfy, Reader.dfy, Broadcast.dfy | message text and reading it back, client slots, the backend's line loop, end to end |
| Pipeline.dfy | the running loader: from packets to the backend's lines, through detector, ring buffer, scans, messages, slots and line loop |
| CString.dfy, Config.dfy, ConfigPrint.dfy, Reload.dfy, ConfigMeaning.dfy | in-place string trimming, the configuration parser, printing and loading, reloads |
| Tracecon.dfy | the four tracecon probes and their history specification |
| Bootstrap.dfy | exec/exit correlation, equivalence of `bootstrap` and `bootstrap_legacy`, the `-d` option |
| Reservoir.dfy | reservoir sampling and its uniformity |

Code that changes state in place is a class or an array method, proved against functions on values; the theorems are
lemmas about those functions.

## Conventions and assumptions

- An address key is the four bytes of the packet in wire order, which is what the raw 32-bit key of the maps holds.
- A map update with a new key on a full map does nothing; the program ignores that error. A new per-CPU value starts at
  zero on the other CPUs.
- An alert is the call to `bpf_ringbuf_output`: the program ignores its result and resets its state anyway. The log entry
  also records the CPU that makes the call.
- 64-bit counters wrap around. Theorems that need a counter not to wrap say so.
- The clock, the packets, random draws, memory allocation, ring-buffer reservations, reads of foreign memory and the
  outcomes of sends are inputs.
- A send takes some first part of a message, which the loader does not look at; the stream is ASCII, and a connection
  number is never used twice.
- `atoi` saturates to 64 bits and truncates to 32, as in glibc.

## Where the code falls short of its description

- `clean_map` is described as cleaning every entry. It starts from key 0, so when 0.0.0.0 is in the map and last in
  iteration order it deletes nothing; in every other case it empties the map, provided its deletions succeed and nothing
  is inserted during the call. `MapCleaner.CleanMap` states both.
- The detector reads the TCP header 20 bytes behind the start of the IP header, whatever the IHL, the fragment offset
  and the total length say. It reads the segments behind an IP header right for exactly the headers without options, at
  fragment offset 0, whose total length has room for a TCP header: `Frames.ReadsRightExactly`. With options it reports
  option bytes as the port, and flags that do not depend on the segment's: `Frames.OptionsAreReadAsTcp`,
  `Frames.OptionsHideSyn`.
- A statistics scan starts over when the key it stands on is deleted meanwhile, and so can report a key more than once;
  `RateReporter.DisturbedScan` bounds how often, and says that no key that stays is missed.
- `-d D` promises only processes that lived at least D ms. The product with 1000000 is taken in 64 bits; the promise
  holds for exactly those D for which it does not wrap: `Bootstrap.MinDurationExactly`.
- The reports of an IP are incomplete once its counter has been cleaned between two readings: over any run they add up
  to what was counted if and only if its entry was not deleted, `Detector.CompleteIffNotCleaned`. A run that loses a
  packet: `Detector.CleaningHidesTraffic`. Reports never exceed what was counted: `Detector.NeverOverReport`.
- A send that takes only part of a message loses its newline and runs into the next: the backend hands on exactly the
  messages sent if and only if every send took the whole, `Broadcast.WholeSendsExactly`.
- A full map drops entries silently. `Isolation.Projection`, `Tracecon.FaithfulIffRoomy` and `Bootstrap.FaithfulIffRoomy`
  say exactly when that shows.
- `pkt_count++` is not atomic: updates can be lost (`FlowRace.LostUpdate`), never invented; the count is exact for
  exactly the serial interleavings (`FlowRace.ExactIffSerial`).

## Model

| member | source | states |
|---|---|---|
| BpfMap.AdmitGrows | project_submit/ebpf_control/src/xdp_blacklist.bpf.c:32-37 | under any sequence of insertions the key set only grows, stays within max_entries and is frozen once full |
| BpfMap.AdmittedOnFirstTouch | project_submit/ebpf_control/src/xdp_blacklist.bpf.c:77-84 | a key that was asked for and is not in the map met a full map, so it was turned away the first time |
| BpfMap.AdmittedExactly | project_submit/ebpf_control/src/xdp_blacklist.bpf.c:77-84 | a new key gets in if and only if it is asked for and the keys asked for before it leave room |
| PortBitmap.BitAfterOr | project_submit/ebpf_control/src/xdp_blacklist.bpf.c:122-124 | setting one bit of a word sets that bit and changes no other |
| PortBitmap.CountWords | project_submit/ebpf_control/src/xdp_blacklist.bpf.c:126-129 | the popcounts of the first n words add up to the number of marked ports below 64n |
| PortBitmap.TotalIsCardinality | project_submit/ebpf_control/src/xdp_blacklist.bpf.c:126-129 | the popcount sum over the sixteen words is the cardinality of the set of ports |
| PortBitmap.PortsAfterMark | project_submit/ebpf_control/src/xdp_blacklist.bpf.c:122-124 | OR-ing in one bit adds exactly that port to the set |
| PortBitmap.Mark | project_submit/ebpf_control/src/xdp_blacklist.bpf.c:122-124 | in place, the words stand for the old set plus the port |
| PortBitmap.CountPorts | project_submit/ebpf_control/src/xdp_blacklist.bpf.c:126-129 | the counting loop returns the size of the set |
| PortBitmap.Clear | project_submit/ebpf_control/src/xdp_blacklist.bpf.c:139-141 | the clearing loop leaves the empty set |
| DataPlane.XdpProgram.UpdateFlowStats | project_submit/ebpf_control/src/xdp_blacklist.bpf.c:75-85 | an existing entry gains one packet and its bytes modulo 2^64, a missing one is inserted if there is room |
| DataPlane.XdpProgram.CheckSynFlood | project_submit/ebpf_control/src/xdp_blacklist.bpf.c:88-106 | the per-CPU slot counts up; past the threshold it falls to 0 with one alert; a missing entry is inserted with 1 |
| DataPlane.XdpProgram.LookupBitmap | project_submit/ebpf_control/src/xdp_blacklist.bpf.c:111-118 | lookup, insertion of a zeroed bitmap when missing, second lookup; null exactly when the map is full |
| DataPlane.XdpProgram.OneBitmapChanged | project_submit/ebpf_control/src/xdp_blacklist.bpf.c:124 | writing through one bitmap pointer changes the set of that source only |
| DataPlane.XdpProgram.MarkAndTest | project_submit/ebpf_control/src/xdp_blacklist.bpf.c:121-142 | in-place words against sets: the port is added; past the threshold the set is emptied with one alert |
| DataPlane.XdpProgram.CheckPortScan | project_submit/ebpf_control/src/xdp_blacklist.bpf.c:109-144 | the whole helper, including the high ports that only create an entry, refines the step on sets |
| DataPlane.XdpProgram.Account | project_submit/ebpf_control/src/xdp_blacklist.bpf.c:181-189 | flood check, scan check and flow update in the program's order |
| DataPlane.XdpProgram.Firewall | project_submit/ebpf_control/src/xdp_blacklist.bpf.c:148-192 | every packet takes the abstract step and gets the verdict, through all early returns |
| Frames.FrameReadsBack | project_submit/ebpf_control/src/xdp_blacklist.bpf.c:155-177 | for every IPv4 frame laid out field by field, the addresses and protocol are read back; the transport fields come from fixed offsets whatever the IHL |
| Frames.SegmentReadsBack | project_submit/ebpf_control/src/xdp_blacklist.bpf.c:161-185 | without IP options, the destination port and the SYN and ACK flags of the segment are what the program sees |
| Frames.OptionsAreReadAsTcp | project_submit/ebpf_control/src/xdp_blacklist.bpf.c:175-185 | behind IP options the port reported is the second pair of option bytes, and what is reported does not depend on the segment's flags |
| Frames.ReadsRightExactly | project_submit/ebpf_control/src/xdp_blacklist.bpf.c:161-185 | whatever the segment and the padding, what the datagram carries of it is read as the segment says, if and only if the IHL is 5, the fragment offset 0 and the total length at least 40 |
| Frames.OptionsHideSyn | project_submit/ebpf_control/src/xdp_blacklist.bpf.c:183-185 | behind options, of two segments differing in SYN only, one is read wrong |
| Traces.PacketsDecode | project_submit/ebpf_control/src/xdp_blacklist.bpf.c:148-192 | running packets is running their decoded requests, since no packet changes the blacklist |
| Traces.DroppedChangesNothing | project_submit/ebpf_control/src/xdp_blacklist.bpf.c:168-171 | a packet the blacklist drops changes no map and raises no alert |
| Traces.RunKeys | project_submit/ebpf_control/src/xdp_blacklist.bpf.c:75-118 | the sources held by each map after a trace are those admitted, in order of first request, while there was room |
| Traces.AdmittedAtFirst | project_submit/ebpf_control/src/xdp_blacklist.bpf.c:75-118 | a source enters a map on the first packet that asks for its entry or never |
| Traces.KeysBounded | project_submit/ebpf_control/src/xdp_blacklist.bpf.c:32-56 | over any trace each map's key set grows, stays within capacity and freezes when full |
| Traces.TurnedAwayForGood | project_submit/ebpf_control/src/xdp_blacklist.bpf.c:75-85 | a source turned away once has no entry after any continuation |
| Traces.FlowExact | project_submit/ebpf_control/src/xdp_blacklist.bpf.c:75-85 | a source with an entry has exactly its packets and bytes counted modulo 2^64, from its first countable packet on |
| Traces.SynBalance | project_submit/ebpf_control/src/xdp_blacklist.bpf.c:88-106 | over any trace, start value plus pure SYNs on a CPU equals (threshold+1) times new alerts plus the stored count |
| Traces.SynClosedForm | project_submit/ebpf_control/src/xdp_blacklist.bpf.c:88-106 | with n pure SYNs on CPU c the stored count is n mod (threshold+1) and the alerts from c are the quotient |
| Traces.UntrackedNoFlood | project_submit/ebpf_control/src/xdp_blacklist.bpf.c:102-105 | a source without an entry raises no flood alert |
| Traces.FloodBounds | project_submit/ebpf_control/src/xdp_blacklist.bpf.c:39-45 | over C CPUs, (T+1)·alerts ≤ n, and n ≤ (T+1)·alerts + T·C for a tracked source |
| Traces.ScanSetIsHistory | project_submit/ebpf_control/src/xdp_blacklist.bpf.c:109-144 | the stored set of a tracked source is exactly the low ports its SYN packets went to since its last scan alert |
| Traces.ScanFiresExactly | project_submit/ebpf_control/src/xdp_blacklist.bpf.c:131-142 | an alert fires on exactly the packets that bring the distinct low ports since the last alert past the threshold, and then there are threshold+1 of them |
| Traces.RunScansOk | project_submit/ebpf_control/src/xdp_blacklist.bpf.c:131-142 | after every packet no stored set is larger than the threshold |
| Traces.ScanSandwich | project_submit/ebpf_control/src/xdp_blacklist.bpf.c:121-142 | distinct low ports ≤ (T+1)·alerts + stored ports ≤ low-port SYN packets |
| Traces.ScanBounds | project_submit/ebpf_control/src/xdp_blacklist.bpf.c:121-142 | distinct low ports ≤ (T+1)·alerts + T, and (T+1)·alerts ≤ low-port SYN packets |
| Traces.DetectorGuarantees | project_submit/ebpf_control/src/xdp_blacklist.bpf.c:148-192 | all bounds on raw packets as decoded, options and fragments included, with 100, 20 and 100000 |
| Segments.FirewallOnFrame | project_submit/ebpf_control/src/xdp_blacklist.bpf.c:155-191 | for every segment, other datagram, cut TCP header and other frame: dropped if and only if its source is listed with 1, and counted with exactly its own addresses, SYN without ACK, and port |
| Segments.DetectorOnFrames | project_submit/ebpf_control/src/xdp_blacklist.bpf.c:148-192 | the bounds on the frames themselves: 101 SYN-without-ACK segments per flood alert but 100 per CPU, 21 different ports below 1024 per scan alert but 20, and packets and bytes of every tracked source, all counted on flags, ports and addresses |
| Segments.TrackedExactly | project_submit/ebpf_control/src/xdp_blacklist.bpf.c:75-119 | a source is in a map if and only if a frame of it called for that before 100000 other sources had |
| Segments.AlertsOfFrame | project_submit/ebpf_control/src/xdp_blacklist.bpf.c:88-144 | one frame adds at most a flood alert and then a scan alert, each with its addresses, CPU and clock |
| Segments.AlertsNameFrames | project_submit/ebpf_control/src/xdp_blacklist.bpf.c:93-99 | every alert of a run carries source, destination, CPU and clock of a frame that can raise it |
| Isolation.OthersUnaffected | project_submit/ebpf_control/src/xdp_blacklist.bpf.c:165-189 | a packet changes nothing kept or emitted for any other source |
| Isolation.OwnSliceDecides | project_submit/ebpf_control/src/xdp_blacklist.bpf.c:181-189 | what a packet does to its own source depends on what is kept for it, and on room in the tables it calls on |
| Isolation.CrowdedOutIsLeftOut | project_submit/ebpf_control/src/xdp_blacklist.bpf.c:75-192 | a source ends up without an entry there was room for if and only if the sources that called for one before it fill the table |
| Isolation.Projection | project_submit/ebpf_control/src/xdp_blacklist.bpf.c:75-192 | from any state, for any trace, a source's counters, set, totals and ordered alerts equal those of the trace filtered to it if and only if in no table with room for it at the start the sources that call for an entry before it take all the room |
| Isolation.PacketProjection | project_submit/ebpf_control/src/xdp_blacklist.bpf.c:148-192 | the same, both ways, on raw packets with their CPU and clock |
| Isolation.ProjectionWithRoom | project_submit/ebpf_control/src/xdp_blacklist.bpf.c:75-192 | while the distinct sources fit, nobody is crowded out, so the two are equal |
| Isolation.Conservation | project_submit/ebpf_control/src/xdp_blacklist.bpf.c:75-85 | with room and below 2^64, the totals over all sources are the number and the byte sum of countable packets |
| FlowRace.NoOverCount | project_submit/ebpf_control/src/xdp_blacklist.bpf.c:78-80 | under every interleaving of loads and stores the count is at most the start plus the completed increments |
| FlowRace.ExactIffSerial | project_submit/ebpf_control/src/xdp_blacklist.bpf.c:78-80 | below 2^64 the count is exact if and only if no store falls between another increment's load and store |
| FlowRace.LostUpdate | project_submit/ebpf_control/src/xdp_blacklist.bpf.c:78-80 | two overlapping increments by different CPUs raise the count by one |
| MapCleaner.HashMap.NextKey | examples/c/ebpf/clean_maps.c:20 | the successor in iteration order; the first key when the argument is absent |
| MapCleaner.HashMap.DeleteElem | examples/c/ebpf/clean_maps.c:21 | removes the key and keeps the order of the others |
| MapCleaner.CleanMap | examples/c/ebpf/clean_maps.c:15-31 | terminates; empties the map and returns its size unless 0.0.0.0 is last in order, when it changes nothing and returns 0; names the keys it deletes, in order |
| MapCleaner.DeletionOrderIsAll | examples/c/ebpf/clean_maps.c:20-24 | those are all the keys, each once, or none when 0.0.0.0 is last |
| RateReporter.ScanReportsEachKeyOnce | project_submit/ebpf_control/src/loader.c:487-497 | a scan reports every key once, in order, with its current totals, and leaves the current readings cached |
| RateReporter.Reporter.FindCache | project_submit/ebpf_control/src/loader.c:409-417 | the search loop finds the one node of the IP or null |
| RateReporter.Reporter.PushCache | project_submit/ebpf_control/src/loader.c:424-430 | a new node goes in front; the list stays acyclic with distinct IPs and gains one reading |
| RateReporter.Reporter.FindOrCreateCache | project_submit/ebpf_control/src/loader.c:407-431 | finds or inserts; null exactly when the IP is new and calloc fails, and then nothing changes |
| RateReporter.Reporter.ReportFlowRate | project_submit/ebpf_control/src/loader.c:433-472 | the list refines the map of last readings; one report with the guarded differences and rates |
| ScanWalk.DisturbedWalk | project_submit/ebpf_control/src/loader.c:474-498 | a walk by get_next_key ends whatever is deleted meanwhile, finds every key that is not deleted, and makes at most (deletions + 1) times the number of keys finds |
| ScanWalk.UndisturbedWalk | project_submit/ebpf_control/src/loader.c:474-498 | undisturbed it is the iteration order |
| RateReporter.Reporter.ReadAndReportStats | project_submit/ebpf_control/src/loader.c:474-498 | the loop, with any deletions before each lookup and each step, terminates and reports the keys found on the walk |
| RateReporter.DisturbedScan | project_submit/ebpf_control/src/loader.c:487-497 | every key not deleted is reported at least once, at most (deletions + 1) times the number of keys reports are made, and nothing that was not there |
| RateReporter.Reporter.FreeCache | project_submit/ebpf_control/src/loader.c:535-540 | cleanup frees every node, none twice, and leaves an empty list |
| Detector.CoveredThroughout | project_submit/ebpf_control/src/loader.c:450-457 | in every run, what was reported for an IP plus what the next reading would add was counted for it |
| Detector.NeverOverReport | project_submit/ebpf_control/src/loader.c:433-457 | under every interleaving of packets, deletions and readings, the reported packets and bytes, and interval times rate, are at most what was counted |
| Detector.RatesAddUp | project_submit/ebpf_control/src/loader.c:453-454 | interval times rate, added up over the messages for an IP, is the reported packets and bytes, short by less than the interval per message |
| Detector.RatesPerInterval | project_submit/ebpf_control/src/loader.c:453-454 | with one interval every report's rates are its deltas divided by it, by 1 when it is not positive |
| Detector.TelescopedThroughout | project_submit/ebpf_control/src/loader.c:450-457 | while an IP's entry is not deleted and does not wrap, its reports span first to last reading and its counter is the start plus what was counted |
| Detector.DeltasTelescope | project_submit/ebpf_control/src/loader.c:433-457 | while an IP's entry is not deleted and does not wrap, its reported deltas are exactly its last reading minus its first |
| Detector.AccountsThroughout | project_submit/ebpf_control/src/loader.c:450-457 | since a reading, reported plus due equals counted until the entry is deleted, and stays short of it from the next count on |
| Detector.CompleteIffNotCleaned | project_submit/ebpf_control/src/loader.c:450-457 | over any run between two current readings, the deltas reported add up to what was counted if and only if the entry was not deleted; packets and bytes |
| Detector.NextReadingCompletesIffNotCleaned | project_submit/ebpf_control/src/loader.c:451-452 | reported plus what the next reading would show is what was counted if and only if the entry was not deleted |
| Detector.CleaningHidesTraffic | project_submit/ebpf_control/src/loader.c:451-452 | a run of deletion, packet and reading that counts a packet and reports nothing |
| Detector.SeenOnceHappens | project_submit/ebpf_control/src/loader.c:433-457 | the system that run starts from comes about from start-up |
| Detector.ScanIsEvents | project_submit/ebpf_control/src/loader.c:474-498 | an undisturbed scan is one reading event per key |
| Detector.CleanIsEvents | examples/c/ebpf/clean_maps.c:15-31 | an undisturbed `clean_map` over any table and iteration order is its deletions as events: the table is emptied and nothing else touched, or nothing happens when 0.0.0.0 is last |
| Text.DecimalWidth | project_submit/ebpf_control/src/loader.c:464-469 | a number below 10^k prints in at most k digits |
| Framing.AlertFits | project_submit/ebpf_control/src/loader.c:398-401 | every alert message fits its 512-byte buffer uncut and has one newline, at its end |
| Framing.FlowFits | project_submit/ebpf_control/src/loader.c:464-469 | every flow-rate message fits its 512-byte buffer uncut and has one newline, at its end |
| Reader.AlertReadsBack | project_submit/ebpf_control/src/loader.c:398-401 | addresses, kind by code and name, and time are read back from every alert line |
| Reader.FlowReadsBack | project_submit/ebpf_control/src/loader.c:464-469 | address, rates, totals and time are read back from every flow line |
| Framing.LinesAppend | project_submit/backend_flask/app.py:373-377 | appending to a stream only extends its lines from the unfinished tail |
| Framing.JoinedSplits | project_submit/backend_flask/app.py:375-377 | lines joined by newlines come apart again, and what follows the last newline stays |
| Framing.LineHandled | project_submit/backend_flask/app.py:377-381 | a line is handled without the white space around it, and skipped when there is nothing else |
| Framing.Receiver.Drain | project_submit/backend_flask/app.py:375-384 | the inner loop takes all complete lines off the buffer, strips them, skips blank ones and keeps the tail |
| Framing.Receiver.Receive | project_submit/backend_flask/app.py:363-387 | whatever the chunk boundaries, lines handled and buffer are functions of the stream received |
| Broadcast.Server.Accept | project_submit/ebpf_control/src/loader.c:323-336 | a connection takes the first free of 16 slots, or is refused when none is free |
| Broadcast.Server.AcceptClients | project_submit/ebpf_control/src/loader.c:309-338 | the loop takes the whole queue, one after the other |
| Broadcast.FirstComeFirstServed | project_submit/ebpf_control/src/loader.c:323-336 | the first of a queue get the free slots, as many as there are, and nobody else does |
| Broadcast.SlotsUsed | project_submit/ebpf_control/src/loader.c:323-336 | nobody loses a slot, and the free ones go down by what the queue needs |
| Broadcast.Server.SendTo | project_submit/ebpf_control/src/loader.c:353-363 | a closed slot is skipped; what a send takes is delivered, however much; would-block drops; any other failure closes the slot |
| Broadcast.Server.BroadcastJsonLine | project_submit/ebpf_control/src/loader.c:348-365 | exactly the open slots whose send succeeds get what it takes of the message; each client is sent a subsequence of what was broadcast since it joined |
| Broadcast.BroadcastActs | project_submit/ebpf_control/src/loader.c:353-363 | slot by slot: what a send takes is delivered, at most the message; a would-block keeps the slot and delivers nothing; only another failure frees it |
| Broadcast.MessagesSplit | project_submit/backend_flask/app.py:376-384 | a stream of whole messages yields exactly their bodies and an empty buffer |
| Broadcast.WholeSendsExactly | project_submit/backend_flask/app.py:376-384 | a stream of sent messages is handed on as exactly their bodies if and only if every send took the whole message |
| Broadcast.EndToEnd | project_submit/backend_flask/app.py:363-387 | for any chunking the backend hands on exactly the bodies of a subsequence of the broadcasts, if and only if no send was cut short |
| Broadcast.EndToEndSoFar | project_submit/backend_flask/app.py:363-387 | in the middle of the stream, with no send cut, it has handed on a prefix of them and buffers no newline |
| Pipeline.BoundedThroughout | project_submit/ebpf_control/src/loader.c:464-469 | in every run all totals, rates and alert times stay below 2^64 |
| Pipeline.RunsSayMessages | project_submit/ebpf_control/src/loader.c:375-472 | whatever the run, every alert and report is worded as one framed line that fits its buffer |
| Pipeline.Daemon.Poll | project_submit/ebpf_control/src/loader.c:379-405 | each alert the poll hands over is worded and broadcast, in order |
| Pipeline.Daemon.Scan | project_submit/ebpf_control/src/loader.c:433-472 | a scan step broadcasts its report, if it makes one |
| Pipeline.AccountedThroughout | project_submit/ebpf_control/src/loader.c:379-472 | in every run the alerts said, then those waiting, are the log, in order and each once, unless the ring buffer was full; the reports said are those made |
| Pipeline.TurnsAreEvents | project_submit/ebpf_control/src/loader.c:752-775 | under the loader's turns the detector runs as it does by itself |
| Pipeline.EverythingExactly | project_submit/backend_flask/app.py:363-387 | a client there from the start hands on every line broadcast, in order and each once, if and only if no send to it failed or was cut |
| Pipeline.FromPacketsToLines | project_submit/backend_flask/app.py:363-387 | for any client and any run of packets, deletions, polls and scans, the backend hands on exactly what was sent if and only if no send was cut, and then every line is about an alert or a report of that run |
| Pipeline.EveryAlertOnce | project_submit/backend_flask/app.py:363-387 | off the lines of a client there from the start that missed nothing one reads every alert raised, with addresses, kind and time, in order and each once, and the flow rates of every report |
| Pipeline.PollHandsOver | project_submit/ebpf_control/src/loader.c:762-766 | a poll hands over the oldest records, as many as it may and there are, and keeps the rest |
| Pipeline.AlertsNameTurns | project_submit/ebpf_control/src/xdp_blacklist.bpf.c:93-99 | whatever else goes on, every alert of a run names source, destination and clock of a frame with SYN |
| CString.Strchr | project_submit/ebpf_control/src/loader.c:182 | the first occurrence inside the NUL-terminated string, or none |
| CString.ChopBlanks | project_submit/ebpf_control/src/loader.c:127-130 | trailing blanks, and only those, become NULs |
| CString.Trim | project_submit/ebpf_control/src/loader.c:117-132 | in place, the string at the result is the trimmed text; nothing outside the old string changes |
| Config.AppConfig.Set | project_submit/ebpf_control/src/loader.c:203-229 | one key and value: the field set or the error, with truncation to the field sizes |
| Config.TakeText | project_submit/ebpf_control/src/loader.c:182-190 | in the line buffer, the comment is cut off and the rest trimmed |
| Config.SplitSetting | project_submit/ebpf_control/src/loader.c:192-201 | in the line buffer, both sides of the first '=' are trimmed without disturbing each other |
| Config.ProcessLine | project_submit/ebpf_control/src/loader.c:182-229 | one line takes the abstract parse step or fails and leaves the configuration alone |
| Config.Fgets | project_submit/ebpf_control/src/loader.c:178 | through the first newline, at most 511 characters |
| Config.LoadConfigFile | project_submit/ebpf_control/src/loader.c:163-234 | the whole loop: missing, unreadable and faulty files included |
| ConfigPrint.LineParses | project_submit/ebpf_control/src/loader.c:182-201 | every well-formed line, with padding and comment, with or without its newline, parses as the item it renders |
| ConfigPrint.DocumentParses | project_submit/ebpf_control/src/loader.c:178-230 | loading a rendered document does what its items say, over any starting configuration, whether or not the last line ends in a newline |
| ConfigPrint.LastLineWins | project_submit/ebpf_control/src/loader.c:203-224 | every field ends as its last line says, or as it started when no line sets it |
| ConfigPrint.AtoiOfDecimal | project_submit/ebpf_control/src/loader.c:210 | atoi reads back every printed number below 2^31 |
| ConfigMeaning.AtoiMeans | project_submit/ebpf_control/src/loader.c:210 | white space, sign, digits, anything: the number clamped to 64 bits, modulo 2^32 |
| ConfigMeaning.AtoiOfText | project_submit/ebpf_control/src/loader.c:210 | text that starts with no number counts as 0 |
| ConfigMeaning.AssignExactly | project_submit/ebpf_control/src/loader.c:203-229 | a setting is accepted if and only if its key is one of the six and its value acceptable; the field then has the value, texts cut to 15, 107 and 255 characters |
| ConfigMeaning.LoadMeans | project_submit/ebpf_control/src/loader.c:163-234 | a document loads if and only if all its settings are acceptable; then every field is as its last line says or as before; a missing file changes nothing and an unreadable one is an error |
| ConfigMeaning.ReadsAtMost511 | project_submit/ebpf_control/src/loader.c:178 | a read stops behind the first newline or after 511 characters |
| ConfigMeaning.TrimsBlanks | project_submit/ebpf_control/src/loader.c:117-132 | blanks, tabs, newlines and carriage returns around a text go, and nothing else |
| ConfigPrint.RoundTrip | project_submit/ebpf_control/src/loader.c:163-234 | any document whose last line per field prints c loads to c over any start, in any order, with blanks, comments, padding and overridden lines, with or without a last newline |
| ConfigPrint.PrintoutLoadsBack | project_submit/ebpf_control/src/loader.c:163-234 | the plain printout of all fields in any order loads back |
| Reload.ParseTextSafe | project_submit/ebpf_control/src/loader.c:209-216 | whatever the file says, the interval stays in 1..3600 and every string inside its buffer |
| Reload.ReloadsSafe | project_submit/ebpf_control/src/loader.c:630-661 | over any sequence of reloads the interval stays in range and interface, flags and socket path keep their start-up values |
| Reload.FailedReloadsVanish | project_submit/ebpf_control/src/loader.c:634-637 | any run of reloads, good and bad mixed, ends as if only the files that load had been there |
| Reload.LoadsOverAnything | project_submit/ebpf_control/src/loader.c:634-637 | whether a file loads does not depend on the configuration in force, and one that does not leaves that unchanged |
| Reload.ReloadIdempotent | project_submit/ebpf_control/src/loader.c:630-661 | loading the same file a second time changes nothing further |
| ConfigMeaning.ReloadTakesOver | project_submit/ebpf_control/src/loader.c:630-661 | a reload succeeds if and only if the document loads; then interval, daemon flag and log file are as it says and the rest stays; after a failure everything stays |
| Reload.Loader.ReloadConfigRuntime | project_submit/ebpf_control/src/loader.c:630-661 | the method takes the abstract reload, keeps bound path and attach flags, and reopens the log exactly when its name changes |
| Reload.Loader.OpenLogFile | project_submit/ebpf_control/src/loader.c:236-254 | the old log is closed; no file for an empty name or "syslog" or when fopen fails |
| Reload.Loader.Cleanup | project_submit/ebpf_control/src/loader.c:509-533 | detaches with the attach mode if attached, unlinks the bound path if bound; a second call does neither |
| Tracecon.Probes.GetaddrinfoEnter | examples/rust/tracecon/src/bpf/tracecon.bpf.c:77-90 | the pending lookup of the thread is recorded, if there is room |
| Tracecon.Probes.GetaddrinfoExit | examples/rust/tracecon/src/bpf/tracecon.bpf.c:92-115 | a successful recorded lookup names its address; the thread's entry is gone afterwards |
| Tracecon.Probes.ConnectEnter | examples/rust/tracecon/src/bpf/tracecon.bpf.c:118-127 | the socket of the thread is recorded, if there is room |
| Tracecon.Probes.ConnectExit | examples/rust/tracecon/src/bpf/tracecon.bpf.c:129-160 | a successful recorded connect is reported by name, consuming it, or by address; the thread's entry is gone afterwards |
| Tracecon.PendingIsHistory | examples/rust/tracecon/src/bpf/tracecon.bpf.c:77-160 | `lookups` and `sockets` hold a thread exactly when its last matching probe was an enter, with what it passed |
| Tracecon.HostnamesAreFresh | examples/rust/tracecon/src/bpf/tracecon.bpf.c:105-153 | `hostnames` maps ip to l if and only if some event resolved it to l and no event since resolved it or successfully connected to it |
| Tracecon.ConnectReports | examples/rust/tracecon/src/bpf/tracecon.bpf.c:129-160 | a successful recorded connect reports host name h exactly when ip was freshly resolved to h, else the address; all other events report nothing |
| Tracecon.TargetSelects | examples/rust/tracecon/src/bpf/tracecon.bpf.c:67-75 | with a target set, the run is that of the target's events alone |
| Tracecon.FaithfulIffRoomy | examples/rust/tracecon/src/bpf/tracecon.bpf.c:77-160 | the three maps hold what the history says all along a run if and only if no insertion meets a full map |
| Tracecon.SmallWorldIsRoomy | examples/rust/tracecon/src/bpf/tracecon.bpf.c:29-48 | no more threads and addresses than map entries always leave room |
| Bootstrap.RingTracer.HandleExec | examples/c/bootstrap.bpf.c:26-62 | the start time is recorded; an event is sent unless a minimum is set or the reservation fails |
| Bootstrap.RingTracer.HandleExit | examples/c/bootstrap.bpf.c:65-111 | thread exits are ignored; the start is consumed; an event with the duration is sent unless too short or unreserved |
| Bootstrap.LegacyTracer.HandleExec | examples/c/bootstrap_legacy.bpf.c:27-58 | the same without a reservation, on a zeroed record |
| Bootstrap.LegacyTracer.HandleExit | examples/c/bootstrap_legacy.bpf.c:61-103 | the same without a reservation, on a zeroed record |
| Bootstrap.LegacyEquivalence | examples/c/bootstrap_legacy.bpf.c:35-102 | on every trace the maps are identical and the ring events are exactly the legacy events whose reservation succeeded, on the fields each kind sets |
| Bootstrap.StartsAreHistory | examples/c/bootstrap.bpf.c:35-87 | `exec_start` holds pid exactly when its last exec or leader exit was an exec, with that time |
| Bootstrap.FaithfulIffRoomy | examples/c/bootstrap.bpf.c:35-87 | `exec_start` is right for every process all along a run if and only if no exec meets a full map |
| Bootstrap.ExitShowsLifetime | examples/c/bootstrap.bpf.c:81-109 | a leader exit reports the time since the latest exec, 0 when none was seen, and is silent exactly when shorter than the minimum or unseen with one set |
| Bootstrap.ExecShowsItself | examples/c/bootstrap.bpf.c:26-62 | an exec adds one event with its pid, parent, command and file when no minimum is set and a record can be had, else none |
| Bootstrap.OthersAreSilent | examples/c/bootstrap.bpf.c:76-97 | thread exits and failed reservations send nothing |
| Bootstrap.PrintsMilliseconds | examples/c/bootstrap.c:86-91 | EXEC for exec events; EXIT with the whole milliseconds of a duration other than 0 |
| Bootstrap.LinesShowAtLeast | examples/c/bootstrap.c:86-91 | with `-d D` and no wrap-around every printed line is an EXIT showing at least D ms |
| Bootstrap.MinDurationExactly | examples/c/bootstrap.c:126 | that promise holds for a positive D if and only if D·1000000 fits in 64 bits |
| Reservoir.AllDrawsIsValidDraws | my_detect.py:86 | the space counted over is exactly the draw vectors with the draw for row p in [0,p) |
| Reservoir.PositionsDistinct | my_detect.py:81-88 | the reservoir holds distinct stream positions |
| Reservoir.StepKeeps | my_detect.py:85-88 | a later row evicts a held position under exactly one draw |
| Reservoir.Uniform | my_detect.py:75-88 | over all draw vectors for n ≥ k rows, n times the number that keep row i is k times their total, for every row |
| Reservoir.SubsetsUniform | my_detect.py:75-88 | every k-subset of the n rows is the final sample under exactly (n-k)! draw vectors, whichever subset it is |
| Reservoir.CountDraws | my_detect.py:86 | there are n!/k! draw vectors, so each subset has the share of one in n choose k |
| Reservoir.SampleChunk | my_detect.py:81-88 | the row loop continues the sample by the rows of one chunk |
| Reservoir.ReservoirSample | my_detect.py:75-88 | the nested loops hold, slot by slot, the rows at the positions of Algorithm R, wherever the stream is cut into chunks |

## Left out

- Kernel hash-map internals (buckets, preallocation, element reuse): only capacity, lookup, update, delete and a fixed key order are kept.
- MapCleaner.CleanMap: does not cover insertions by the data plane during the call, which could make the original run on; deletions always succeed.
- RateReporter.Reporter.ReadAndReportStats: covers deletions during the scan, not insertions, and takes the values as they were at its start; Detector.dfy covers every interleaving event by event.
- FlowRace.ExactIffSerial: covers the packet counter of an existing entry; races on insertion and on the port bitmap are not interleaved.
- Non-ASCII bytes split across chunks.
- JSON parsing and everything behind it in the backend: SQLite, geolocation, Flask routes, SocketIO, and the label choice in `call_inference`, which only branches on the message.
- Sockets, files, signals, syslog, daemonizing and libbpf calls: inputs or absent.
- Wall-clock accuracy of rates: the code divides by the configured interval, and so does the model.
- `examples/c/ebpf/xdp_blacklist.bpf.c`, which repeats the same program, and generated skeleton headers.
- `examples/c/blacklist_ctl.py`: its integer keys are not tied to the filter's wire-order keys.
- Model training, pandas and quantiles in my_detect.py.
- The other tracing demos (kprobe, uprobe, fentry, usdt, lsm, tc, profile, task_iter, minimal, sockfilter): plumbing without state across events.
