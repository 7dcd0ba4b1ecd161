# netscan: verified model

Netscan scans a range of IPv4 addresses with a bounded number of probes at a time, either by ICMP echo or by TCP
connections, and lists the kernel's neighbour table. This project models its two scan loops, the range arithmetic
under them, the packets they send and read, and the neighbour-table walk, in Dafny 4.11.

Both scanners are proved against one abstract scanner, `ScanModel`: a cursor, a bounded map of the hosts in flight to
their send times, a list of found hosts, and the steps skip, launch, answer, refuse, expire, stray (a reply for a host
that is not in flight) and rollback. The scanners themselves are classes with the tables, counters and lists of the
original, updated in place. Each carries a ghost `trace` of abstract steps; its invariant says that the tables stand
for the state the trace leads to, and each method says exactly which steps it adds.

The environment is arbitrary input: what the send and receive calls return, the datagrams, the clock readings, the
outcome of each connection attempt, which connections become ready, which descriptor a socket gets. A run takes an
environment that supplies one round for every number, and the theorems are about all of them.

| files | what is in them |
|---|---|
| `Words`, `Wrappers`, `Clock` | 32-bit words with bitwise operators, options, clock readings |
| `Ipv4` | CIDR ranges, host indices, the local subnet |
| `Icmp`, `Sequences`, `SendQueue` | echo messages as bytes, sequence numbers, the batched send buffers |
| `ScanModel`, `Expiry`, `ProbeTable`, `ScanLinks` | the abstract scanner, reaping, slot table and index, how they stand for it |
| `Replies`, `PingSpec`, `PingRuns`, `PingLogs` | what a reply stream, a batch, a round and a run amount to |
| `PingLinks`, `PingScanner` | the ping scanner class |
| `TcpRuns`, `Kernel`, `TcpLinks`, `TcpScanner` | the TCP scan as steps, descriptors and registrations, the TCP scanner class |
| `Netlink`, `ArpTable` | neighbour messages, their bytes, and the walk over them |

What is assumed is written as preconditions: a range that ends inside the address space and has at most 2^31 hosts
(which every accepted CIDR text gives) and padded netlink messages. Whole runs are those that end: with room for at
least one probe and one packet per batch and a clock that advances from round to round all of them do, and without
that room no run with hosts does. What holds after any number of rounds needs neither. The kernel never
takes or returns more messages than it was asked for, gives out only descriptors that are not open, and reports only
registered connections; scripts that ask for more are cut down to that.

One property one might expect does not hold. After a failed flush the cursor is moved back by the number of unsent
packets, not to the first unsent host; when hosts were skipped behind that one, withdrawn hosts stay behind the
cursor. `PingSpec.RewindExact` says exactly when, and `PingSpec.RewindCanPassUnsent` gives such a scan: 10.0.0.0/31
from an interface that owns 10.0.0.1. Since a failed flush ends the run, no later step depends on it.

## Model

| member | source | states |
|---|---|---|
| ScanModel.RunKeepsInv | src/ping_scanner.cpp:73-80 | every run of enabled steps keeps the cursor in range, the hosts in flight behind it and within the limit, the found list free of duplicates, and no found host in flight |
| ScanModel.FoundIsFinal | src/ping_scanner.cpp:402-405 | the found list only grows at its end, and a host once found is never launched afterwards |
| ScanModel.NoSecondLaunch | src/ping_scanner.cpp:386-430 | a host is launched a second time only if its launch was rolled back in between |
| ScanModel.Conservation | src/ping_scanner.cpp:73-84 | over any run, with or without rollback: launches equal answers, refusals, expiries, withdrawals and what is still in flight; the cursor has passed the skips and the launches kept; the found list is the answers and strays |
| ScanModel.EveryHostSettles | src/ping_scanner.cpp:73-84 | at the end of a run without rollback each host has exactly one of the listed histories, and is found exactly when a reply is in it |
| Expiry.ReapExact | src/ping_scanner.cpp:684-705 | reaping leaves exactly the probes whose age is within the timeout, by legal steps, one expiry for each of the others |
| Expiry.ReapByAge | src/ping_scanner.cpp:693 | a probe expires exactly when its age is greater than the timeout; one that has just reached it is kept |
| Expiry.SlackDrops | src/ping_scanner.cpp:682-704 | a later reaping that closes nothing leaves some probe strictly less time |
| Clock.ElapsedExact | src/ping_scanner.cpp:690-691 | the seconds-and-nanoseconds formula is the true difference in nanoseconds, also when its second part is negative; it fits 64 bits up to a stated year and fails to for some readings beyond |
| ProbeTable.IndexExact | src/ping_scanner.cpp:297-316 | an index entry is a slot exactly when that slot is active and probes the entry's host; no two active slots hold one host |
| ProbeTable.InFlightSize | src/ping_scanner.cpp:388-427 | as many hosts are in flight as slots are active |
| ProbeTable.LinkedFacts | src/ping_scanner.cpp:261-268 | the counter is the number of probes in flight; it is below the limit exactly when some slot is free |
| Sequences.AllocationOrder | src/ping_scanner.cpp:285-295 | allocation k hands out (k mod 65535) + 1, never 0, and any 65535 in a row all differ |
| PingLinks.ActiveNumbersDiffer | src/ping_scanner.cpp:412-417 | while at most 65535 probes were launched, active slots carry distinct sequence numbers |
| Ipv4.CidrBlock | src/utils.cpp:175-181 | a prefix of 1 to 32 gives the aligned block of 2^(32 - prefix) addresses that holds the address and ends inside the address space (section 3.1 of RFC 4632) |
| Ipv4.ParseCidrAccepts | src/utils.cpp:132-183 | an address without a prefix names that address alone, as one with prefix 32 does; exactly the prefixes outside 0 to 32 are rejected |
| Ipv4.PrefixZeroIsEmpty | src/utils.cpp:178-181 | prefix 0 gives an empty scan |
| Ipv4.ParsedIsScannable | src/utils.cpp:171-183 | every accepted range fits the address space and its indices fit a signed 32-bit integer |
| Ipv4.HostIndexInverts | src/ping_scanner.cpp:270-279 | on such a range base + index never wraps, the index is its inverse, and -1 is returned exactly outside |
| Ipv4.Fetch | src/utils.cpp:19-124 | the first interface in the list that is up, no loopback, can broadcast and has the routed IPv4 address: its own address between its network and broadcast address, which span the aligned block of a contiguous mask; the default when there is none |
| Ipv4.DescribeExact | src/utils.cpp:89-96 | bit by bit, the network address has what address and mask both have, the broadcast address what the address has or the mask lacks |
| Ipv4.DescribeBlock | src/utils.cpp:89-91 | with a contiguous mask of p bits the two are the ends of the aligned block of 2^(32 - p) addresses around the address |
| Ipv4.LocalExactly | src/utils.cpp:59-98 | whatever the mask, the subnet holds the interface's address, and the targets are local exactly when some address is both a target and in the subnet; an empty range counts as its base |
| Ipv4.SubnetIsBlock | src/utils.cpp:89-91 | any contiguous mask, the empty one included, gives an aligned block around the interface's address |
| Ipv4.MeetIsContainment | src/utils.cpp:98 | of two aligned blocks that meet, the larger contains the smaller |
| Ipv4.LocalIsContainment | src/utils.cpp:59-98 | for a range as it is parsed and an interface with a contiguous mask, the targets are local if and only if one of the two ranges contains the other |
| Ipv4.LocalSkipExact | src/ping_scanner.cpp:395-399 | for a matched interface, whatever its mask, a host is skipped as local exactly when its address is the network or broadcast address; the local flag never blocks such a skip |
| Ipv4.AtMostTwoLocal | src/ping_scanner.cpp:395-399 | whatever the interface, at most two hosts of a range are local addresses |
| Icmp.RequestHeader | src/ping_scanner.cpp:350-356 | a request is an echo message (RFC 792) with code and checksum 0, and its identifier and sequence number read back in network order |
| Icmp.RequestBytes | src/ping_scanner.cpp:350-370 | every byte of a request: type 8, code and checksum 0, identifier and sequence number high byte first, target and send time low byte first, and the padding |
| Icmp.EchoRoundTrip | src/ping_scanner.cpp:350-362 | reading the reply that echoes a request gives back its target and send time |
| SendQueues.SendQueue.Prepare | src/ping_scanner.cpp:343-384 | position i holds exactly the request for its target, and every other filled position keeps its message |
| SendQueues.SendQueue.OtherRegion | src/ping_scanner.cpp:348 | regions of different positions do not overlap and are in bounds |
| PingLinks.EncodedEchoClaims | src/ping_scanner.cpp:545-580 | an echo of the message encoded for a position, from that position's target, is a claim of its host, with the round-trip time from its own send time, at least 0 |
| Replies.AddsHostByTests | src/ping_scanner.cpp:539-574 | the tests on type, source, range and found list decide exactly whether a datagram adds a host |
| Replies.FoundInOrder | src/ping_scanner.cpp:559-583 | for any reply stream the found list is the claimed hosts in the order of their first claims, each reported from its first claim |
| Replies.ClaimsAreFound | src/ping_scanner.cpp:559-583 | every claimed host is in the list and no host twice |
| Replies.FoundExactly | src/ping_scanner.cpp:536-583 | a host is found exactly when the stream has a datagram of at least 32 bytes and type 0 that comes from its address and names it in bytes 8 to 11 |
| Replies.ResultsName | src/ping_scanner.cpp:582-611 | the reported addresses are those of the found hosts, in order, inside the range |
| Replies.ReplyAccounting | src/ping_scanner.cpp:540-583 | echo replies plus short packets equal found hosts plus unmatched replies |
| Replies.CountsExact | src/ping_scanner.cpp:539-552 | the counts are the numbers of datagrams of type 0 with at least 32 bytes, and of those with 8 to 31 bytes |
| PingLinks.CountersBalance | src/ping_scanner.cpp:540-583 | the same for the 32-bit counters, modulo 2^32 |
| Replies.DrainLegal | src/ping_scanner.cpp:624-675 | draining any datagrams is a run of legal answer and stray steps |
| Replies.DrainFound | src/ping_scanner.cpp:624-675 | draining extends the found list to that of the longer stream, whatever is in flight |
| PingSpec.PopulateStops | src/ping_scanner.cpp:388 | a batch stops only at the end of the range, at the probe limit or when it is full |
| PingSpec.PopulateUnique | src/ping_scanner.cpp:388-428 | the batch is the only run of passes that always had room and cannot go on |
| PingSpec.DeliveredExact | src/ping_scanner.cpp:432-462 | the packets that got out are those taken by the calls up to the one that completes the batch or makes the scanner give up; every full-buffer report on the way is counted |
| PingSpec.RewindExact | src/ping_scanner.cpp:496-504 | after a failed flush the cursor is never before the first unsent host, and is there exactly when no host behind that one, up to the end of the batch, is a local address or already found |
| PingSpec.RewindSkips | src/ping_scanner.cpp:496-504 | the same of the steps themselves: moving back by the unsent launches meets the first of them exactly when no skip lies behind it |
| PingSpec.RewindCanPassUnsent | src/ping_scanner.cpp:501 | a scan of a /31 range whose upper address is the local interface (mask of 32 bits), in which the rewound cursor stands past the withdrawn host 0 |
| PingSpec.SendExact | src/ping_scanner.cpp:514-531 | sending adds exactly the hosts whose packets got out to those in flight, moves the cursor by the passes less the unsent packets, and is a run of legal steps |
| PingRuns.ArrivalsExact | src/ping_scanner.cpp:624-675 | what arrives is the datagrams of all full receive calls and of the one after them, in order, and nothing later |
| PingRuns.RoundExact | src/ping_scanner.cpp:73-80 | a completed round is a legal run without rollback that leaves no probe over age and none that was not in flight or just launched |
| PingRuns.TimeoutExact | src/ping_scanner.cpp:682-693 | in seconds: a probe expires exactly when 1000 times its age exceeds the timeout in milliseconds, and is kept otherwise |
| PingLogs.Terminates | src/ping_scanner.cpp:73-80 | with room for a probe and a packet and a clock that advances, every run comes to an end, whatever is sent, received or lost |
| PingLogs.HaltsExactly | src/ping_scanner.cpp:73-80 | a configuration ends every run with an advancing clock if and only if it has no hosts, or room for one probe and one packet per batch |
| PingLogs.RunFaithful | src/ping_scanner.cpp:56-85 | after any number of rounds, failed or not: the steps are legal, the found hosts are those the drained datagrams claim, the hosts on the wire are the probed ones, each once, every skip has its true reason, and only a failed round ends with a rollback |
| PingLogs.StreamGrows | src/ping_scanner.cpp:614-676 | a completed round adds exactly those to the stream if the socket became readable, and nothing otherwise |
| PingLogs.StreamStays | src/ping_scanner.cpp:74-76 | a round that fails, or comes after the end, adds none |
| PingLogs.PingConservation | src/ping_scanner.cpp:73-84 | at a normal end local addresses were skipped and never probed; another host was skipped exactly when a reply had come before its turn; every other one was sent exactly one request, which was answered or timed out; requests equal answers plus timeouts, and hosts found equal answers plus strays |
| PingLogs.FewSkippedLocally | src/ping_scanner.cpp:395-399 | after any number of rounds, failed or not, at most two hosts have been skipped as local addresses |
| PingLogs.AnsweredIsFound | src/ping_scanner.cpp:533-676 | if in a completed round a receive call, all before it having returned full batches, returns a datagram that echoes a request on the run's wire and comes from its target, the host is found from then on |
| PingLogs.AnsweredReport | src/ping_scanner.cpp:576-611 | the host's result has its address, the datagram's time-to-live, and the larger of 0 and the time from the request's send time to the datagram's arrival, if that datagram is the first to show the host |
| PingLogs.WireExact | src/ping_scanner.cpp:514-531 | request k of a run was sent in one of its rounds, carries that round's send time and is allocation k |
| PingLogs.WireBytes | src/ping_scanner.cpp:343-384 | it is a request to its host's address, with sequence number (k mod 65535) + 1, that address and that send time |
| PingLogs.ExpiredIsOverAge | src/ping_scanner.cpp:684-703 | a probe that timed out had a request on the wire, and a round ended later than the timeout after that request's send time |
| PingLogs.DropsExact | src/ping_scanner.cpp:448-449 | a round adds as many drops as its batch met with full-buffer reports |
| PingLogs.ResultExact | src/ping_scanner.cpp:82-84 | one result for each host found, in order, with its address; and the four counters as counts modulo 2^32 |
| PingScanners.PingScanner.constructor | src/ping_scanner.cpp:28-44 | the probe limit and both batch sizes are the ones asked for or the number of hosts, whichever is less; with room for a probe and a packet the scan can make progress; the tables are empty and consistent |
| PingScanners.PingScanner.IndexAgreement | src/ping_scanner.cpp:386-430 | in every state: index and table agree both ways, the counter counts the active slots, no host with a slot is found, and none from the cursor on has one |
| PingScanners.PingScanner.FindAvailableProbeSlot | src/ping_scanner.cpp:261-268 | the first free slot, or -1 when all are active |
| PingScanners.PingScanner.ReleaseProbeSlot | src/ping_scanner.cpp:297-316 | an active slot's host leaves the probes in flight and nothing else changes; any other slot is left alone |
| PingScanners.PingScanner.Inspect | src/ping_scanner.cpp:393-405 | the host at the cursor is skipped exactly when it is a local edge address or found; its index is in range and never has a slot |
| PingScanners.PingScanner.OpenProbe | src/ping_scanner.cpp:412-427 | the launch step, with the next sequence number |
| PingScanners.PingScanner.PopulateHost | src/ping_scanner.cpp:388-428 | one pass of the abstract scanner; a slot is always found |
| PingScanners.PingScanner.PopulateBatchEntries | src/ping_scanner.cpp:386-430 | exactly the abstract batch, and the buffers hold its requests in order |
| PingScanners.PingScanner.SendMessages | src/ping_scanner.cpp:432-462 | how many packets the kernel took, which requests these were, and how often the buffer was full |
| PingScanners.PingScanner.Withdraw | src/ping_scanner.cpp:496-501 | the unsent hosts leave the probes in flight, no slot is touched otherwise, and the cursor goes back by their number |
| PingScanners.PingScanner.FlushSendQueue | src/ping_scanner.cpp:432-512 | success exactly when all packets got out; otherwise the rest is withdrawn |
| PingScanners.PingScanner.SendBatch | src/ping_scanner.cpp:514-531 | exactly the abstract steps of sending, the requests on the wire, and the drop counter |
| PingScanners.PingScanner.CloseFound | src/ping_scanner.cpp:585-596 | an answer if the host was in flight, else a stray, and the tables follow |
| PingScanners.PingScanner.Examine | src/ping_scanner.cpp:539-574 | a datagram is fresh exactly when it adds a host to the list |
| PingScanners.PingScanner.ProcessReceivedPacket | src/ping_scanner.cpp:533-612 | exactly the abstract step of the datagram; lists, callback and counters are those of the longer stream |
| PingScanners.PingScanner.ReceiveResponses | src/ping_scanner.cpp:614-676 | exactly the datagrams that arrive are taken in, in order, until a call fails, is empty or is not full |
| PingScanners.PingScanner.ReapSlots | src/ping_scanner.cpp:684-705 | the slots left are exactly those within the timeout, and the counter grows by the number freed |
| PingScanners.PingScanner.ReapTimedOutProbes | src/ping_scanner.cpp:678-706 | exactly the abstract expiries |
| PingScanners.PingScanner.Summarize | src/ping_scanner.cpp:82-84 | one result for each host found, in order, all of them given to the callback; the counters are the echo replies, expiries and full-buffer reports modulo 2^32, and echo replies plus short packets balance hosts plus unmatched replies |
| PingScanners.PingScanner.Run | src/ping_scanner.cpp:56-85 | for every environment in which the abstract run ends, ends at the same round and leaves its log; returns one result for each host found, in order, and the counts of echo replies, expiries and full-buffer reports modulo 2^32; unless sending failed leaves every slot free and every entry -1 |
| TcpRuns.InitiateLegal | src/tcp_scanner.cpp:144-155 | starting a batch is a run of legal steps that moves the cursor once for each |
| TcpRuns.InitiateTries | src/tcp_scanner.cpp:68-155 | host i of a batch is skipped as a local address, or is launched or not according to its own attempt, the next one of the script |
| TcpRuns.InitiateStops | src/tcp_scanner.cpp:144-155 | a batch ends only when it is full, at the end of the range or at the limit of open connections |
| TcpRuns.RunCauses | src/tcp_scanner.cpp:53-239 | every step of a run has its cause in one of its rounds: a host is skipped as local, launched or not started as its own attempt in the round that passes it says; it is answered or refused when its open connection became ready, as the error first reported says; it expires when its open connection is over age |
| TcpRuns.PassedOnce | src/tcp_scanner.cpp:144-155 | no host is passed in two rounds |
| TcpRuns.AttemptsDiffer | src/tcp_scanner.cpp:144-155 | within a round no two hosts are given the same attempt |
| TcpRuns.PollLegal | src/tcp_scanner.cpp:166-219 | polling is a run of at most n legal steps, each an answer or a refusal, and changes no connection that it leaves in flight |
| TcpRuns.PollSpares | src/tcp_scanner.cpp:166-189 | a connection whose peer has not become ready stays in flight |
| TcpRuns.PollCloses | src/tcp_scanner.cpp:166-189 | if no more than n connections in flight became ready, each of them is closed |
| TcpRuns.PollCount | src/tcp_scanner.cpp:157-166 | a poll closes as many connections as became ready, up to the number it takes in |
| TcpRuns.PollFinds | src/tcp_scanner.cpp:198-218 | the results of a poll name the hosts it finds, in order |
| TcpRuns.PollReports | src/tcp_scanner.cpp:191-206 | the result for a host that a poll finds: its address, the port, and the larger of 0 and the time from the start of its connection to the first report about it |
| TcpRuns.TimeoutExact | src/tcp_scanner.cpp:227-231 | the same for connections |
| TcpRuns.RunFaithful | src/tcp_scanner.cpp:53-66 | after any number of rounds the steps are legal, none of them a stray or rollback, and the results name the hosts found |
| TcpRuns.ReadyIsTaken | src/tcp_scanner.cpp:59-63 | in a round that is carried out an open connection that became ready, among no more than a poll takes in, is answered or refused as its first report says |
| TcpRuns.OverAgeExpires | src/tcp_scanner.cpp:59-63 | and one still open and over age when the round reaps expires |
| TcpRuns.TcpPartition | src/tcp_scanner.cpp:59-65 | at the end every host has exactly one of five outcomes: local skip (exactly for local addresses), not started (exactly when not local and, in its own attempt, the socket could not be opened, made non-blocking, connected or registered), open, refused, timed out. A connection starts at its attempt and ends in that round or a later one, by the first report about it or over age; the hosts reported are those that opened, each once, with address, port and the time from attempt to report |
| TcpRuns.FewSkippedLocally | src/tcp_scanner.cpp:72-76 | after any number of rounds at most two hosts have been skipped as local addresses |
| TcpRuns.TcpConservation | src/tcp_scanner.cpp:59-65 | hosts equal skips plus launches, launches equal answers, refusals and expiries, and the results equal the answers |
| TcpRuns.TcpHaltsExactly | src/tcp_scanner.cpp:59-63 | every run with an advancing clock ends if and only if there are no hosts, or room for one connection and one attempt per batch |
| TcpLinks.WiredExactly | src/tcp_scanner.cpp:126-141 | the scan's open descriptors are exactly the sockets of the active slots, pairwise distinct, and the registrations are exactly socket to slot |
| TcpLinks.ReportPending | src/tcp_scanner.cpp:166-178 | every event comes from the connection in the slot it names, no two from one slot, and what the kernel reports is what the abstract scanner polls |
| TcpLinks.WiredEnd | src/tcp_scanner.cpp:59-65 | with no active slot, nothing of the scan is open, connected or registered |
| TcpScanners.TcpScanner.ResourcesExact | src/tcp_scanner.cpp:106-141 | in every state the open descriptors are the sockets of the active slots, the registrations are socket to slot, and opened equals closed plus active |
| TcpScanners.TcpScanner.constructor | src/tcp_scanner.cpp:23-40 | the limit and the batch size are the ones asked for or the number of hosts, whichever is less; with room for a connection and an attempt the scan can make progress |
| Kernels.Kernel.Close | src/tcp_scanner.cpp:186-187 | may be called only on an open connection of the scan; ends its connection and registration |
| TcpScanners.TcpScanner.OpenSocket | src/tcp_scanner.cpp:91-134 | a connected and registered socket if every step succeeds; otherwise the kernel is as before |
| TcpScanners.TcpScanner.InitiateSingleConnection | src/tcp_scanner.cpp:68-142 | one abstract step for the host at the cursor, tried at most once; a slot is always found |
| TcpScanners.TcpScanner.InitiateConnections | src/tcp_scanner.cpp:144-155 | exactly the abstract batch |
| TcpScanners.TcpScanner.CloseSlot | src/tcp_scanner.cpp:186-189 | the step for the slot's own host; the decrement never underflows |
| TcpScanners.TcpScanner.RecordResult | src/tcp_scanner.cpp:206-218 | the duplicate test never rejects: the list and the callback both get the result |
| TcpScanners.TcpScanner.HandleEvent | src/tcp_scanner.cpp:166-219 | the host whose connection raised the event is closed, and reported exactly when the socket has no error |
| TcpScanners.TcpScanner.PollConnections | src/tcp_scanner.cpp:157-221 | exactly the abstract poll and its results |
| TcpScanners.TcpScanner.ReapTimedOutProbes | src/tcp_scanner.cpp:223-239 | exactly the abstract expiries, each with its descriptor closed |
| TcpScanners.TcpScanner.Run | src/tcp_scanner.cpp:53-66 | for every environment in which the abstract run ends, ends at the same round with its results, calls back exactly those, and has closed as many descriptors as it opened |
| Netlink.ZeroMac | src/arp_table.cpp:111-120 | comparing the text with the zero text tells whether all six bytes are zero |
| Netlink.GatherIsLast | src/arp_table.cpp:28-52 | the last address attribute before the first short hardware address gives the address, first byte highest; the last hardware address there gives the text, two digits a byte with colons |
| Netlink.ListedExactly | src/arp_table.cpp:55-143 | the list has exactly the entries of the resolved IPv4 neighbours with an address that is no group address and a hardware address, among the messages before the first DONE or ERROR, with interface index and name |
| Netlink.AttributeLayout | src/arp_table.cpp:24-36 | the bytes of an attribute: length, kind, payload, padded to a multiple of four |
| Netlink.MessageLayout | src/arp_table.cpp:98-117 | the bytes of a message: length, type, and a neighbour's family, interface index, state and attributes at their offsets |
| Netlink.AttributesDecode | src/arp_table.cpp:28-52 | on encoded attributes the walk stays inside them and gathers what they mean |
| Netlink.MessagesDecode | src/arp_table.cpp:198-208 | on encoded messages the walk stays inside the bytes and yields the entries of the messages before the first DONE or ERROR |
| ArpTables.StreamDecodes | src/arp_table.cpp:171-213 | however the messages are spread over datagrams, and however often the call is interrupted, the entries are those of the whole stream |
| ArpTables.StreamCutOff | src/arp_table.cpp:180-196 | a failed or cut-off receive call ends the list with what came before it |
| ArpTables.ArpReader.ParseNetlinkAttributes | src/arp_table.cpp:24-53 | the loop computes the walk over the attributes |
| ArpTables.ArpReader.ParseNetlinkMessage | src/arp_table.cpp:55-143 | keeps the message's entry, or closes the socket and ends the list |
| ArpTables.ArpReader.KeepNeighbour | src/arp_table.cpp:118-140 | an entry is added unless it has no address, is unresolved, or is for a multicast or broadcast address |
| ArpTables.ArpReader.ParseDatagram | src/arp_table.cpp:198-212 | the loop appends exactly the entries of the walk |
| ArpTables.ArpReader.GetArpTable | src/arp_table.cpp:145-217 | the entries of all receive calls; a socket that was opened is closed exactly once on every path |

## Left out

- Socket, epoll and fcntl setup, their error texts and exceptions: only the outcomes of sending, receiving, connecting
  and waiting are modelled, as scripts.
- Kernel outcomes that cannot happen: a script that claims more packets sent than asked for, a descriptor already open
  or an unregistered connection is cut down or ignored rather than excluded by a precondition; a script that is used up
  reads as failure.
- Clock.ElapsedExact: seconds are unbounded integers in the scanners; the lemma says up to where 64 bits are enough.
- Replies.RoundTrip: the round-trip time is integer nanoseconds with the floor at zero, not a double of milliseconds,
  and a payload timestamp far out of range would overflow in the original.
- Icmp.Payload: the four bytes of struct padding are zero, and the host is little-endian.
- PingScanners.PingScanner.Run: requires that the abstract run ends in this environment, since a method must;
  `PingLogs.HaltsExactly` says which configurations always do, and `RunRound` what every round does without that.
  Receive-queue overflow counts are absent, time-to-live and receive
  time are inputs, and host names and address texts are not part of the results.
- PingScanners.PingScanner.ReapTimedOutProbes: the expiries of one reaping are listed by host, not by slot.
- PingScanners.PingScanner.FlushSendQueue: the two rollback branches of the original, which do the same, are one.
- TcpScanners.TcpScanner.Run: requires the same of its abstract run, and that no connection is open when it starts,
  which holds after construction and after every run.
- TcpScanners.TcpScanner.PollConnections: the batch size is used as a natural number; the original casts it to a signed
  32-bit integer, which turns negative for a batch of 2^31, possible only with a /1 range.
- TcpScanners.TcpScanner.Shut: the unregister, close, deactivate and decrement that polling and reaping each spell out
  are one method.
- Kernels.Kernel.Connect: the kernel keeps one connection per peer address, and connecting to a peer that is still
  connected is ruled out by its precondition, which the scanner meets.
- The callback is the list of results handed to it; DNS lookups, formatting and printing are absent.
- Edge-triggered wake-ups, socket buffer sizes and the destructors, which find nothing to close after a run.
- CIDR and address texts: parsing starts from an address and a prefix integer.
- ArpTables.ArpReader.ParseNetlinkAttributes: requires padded attributes, since on others the macros walk outside the
  message; interface names are a function of the index.
- The command line, the printed tables, and the tests.
