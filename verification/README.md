# A verified model of the ODNS measurement tools

The repository measures the open DNS infrastructure: it scans address ranges over UDP and TCP, traces
routes to resolvers, measures how fast resolvers answer, and observes whether they minimise query
names. This project models the parts of it whose correctness is not visible in any single function
and proves properties of them for all inputs and all runs.

| files | what they model |
|---|---|
| `Wrappers.dfy`, `Arith.dfy`, `Text.dfy` | options; powers of two and 64-bit arithmetic; decimal text, splitting, joining, searching |
| `Lcg.dfy`, `GenIps.dfy` | the linear congruential address permuter and the address generator built on it |
| `Reassembly.dfy` | IPv4 fragment reassembly (RFC 791, section 3.2) |
| `UdpTracker.dfy`, `UdpAnswers.dfy` | the UDP probe table: odometer, inserts, responses, timeout sweep; when a probe is answered and when it expires |
| `TcpCodec.dfy`, `TcpTracker.dfy`, `TcpPackets.dfy` | the TCP id codec, the chains per connection, and what each packet does to them |
| `TcpPostproc.dfy`, `TcpRemoval.dfy` | the CSV rows, the script that classifies them, and what it does on arbitrary rows |
| `Traceroute.dfy` | the hand-off from SYN traceroute to DNS traceroute, with its unlocked test and locked section, and the hops recorded on the way |
| `QminName.dfy`, `QminServer.dfy`, `QminTrack.dfy`, `QminLog.dfy` | the printed query name, the name server, its table over whole runs, and what its log means |
| `QminZone.dfy` | which names the server enters, and its answers to all others |
| `QminPattern.dfy`, `QminMerge.dfy`, `QminRaw.dfy` | the log's analysis, the merging of rows, and what the merged table says of the rows as stored |
| `QminPipeline.dfy`, `QminInduced.dfy`, `QminModes.dfy` | the paths from the scanner's name to the reported pattern or verdict, for plain, induction, mode and NXDOMAIN probes |
| `RateProtocol.dfy`, `RateVerdicts.dfy` | the rounds of a rate test, and when a sub-routine retires |
| `RateWindow.dfy`, `RateTotals.dfy` | the windows in which answers are counted, and the totals of a test with its windows |

Code that changes state is modelled by classes and loops. Where several goroutines take part, there is
also a transition system; each method of the class is proved to be one of its steps, and the
properties are proved of all runs of the system, whatever the interleaving.

Random draws, clock readings, received packets and random nonces are parameters. Packets arrive
decoded. Machine arithmetic is written out where it matters (64-bit wrap-around and truncated
remainder in the permuter, 32-bit sequence numbers and ids, 16-bit ports).

Where code and expectation differ, the model follows the code:

* The permuter is a permutation for every pair of draws exactly when `stop <= 2^31`. Above that the
  register can go negative (`Lcg.PermutationIff`). For powers of two the addresses are still right,
  up to the whole IPv4 space, because only residues matter (`GenIps.Generate`).
* A fragment that arrives twice before its datagram is complete blocks the identification for good:
  with any repetition allowed, something is delivered exactly when all pieces come before any of them
  is repeated (`Reassembly.DeliveredIff`, `Reassembly.RepeatedFirstPiece`).
* `first_to_syn_ack` names the last handler to enter the locked section, while the first one opens the
  DNS phase. Once a phase has started, the record keeps naming its opener until the next restart
  exactly when it does so already and every handler between test and lock has the opener's address
  (`Traceroute.FirstResponderIff`).
* A handler left over from before a restart can open the next target's phase. A restart is safe from
  that exactly when no handler is between test and lock (`Traceroute.StaleIff`). Waiting until the last
  trace is written, as the program does, does not exclude it (`Traceroute.StaleHandlerOpensNewPhase`).
* A TXT query below full depth, for a name that is the longest so far and was first asked for under
  another type, freezes the server's log: the scan of that resolver then never completes
  (`QminLog.CompletesIff`, `QminLog.EarlyTxtBlocks`, `QminPipeline.TxtAnsweredIff`).
* A checksum printed without leading zeros can make the id label shorter than the ten characters the
  server asks for; such a probe is refused (`QminPipeline.ServedIff`).
* The post-processing script says it removes a record whose answer does not qualify, but pops the key
  `0` (a number, where keys are text), so the record stays. An id is written exactly when its rows hold
  a SYN, a SYN-ACK and a qualifying answer, in any order and among any others (`TcpRemoval.WrittenIff`).
  The removal would write the same ids exactly when every complete id is still complete counting only
  the rows after its last answer that does not qualify (`TcpRemoval.RemovalAgreesIff`). A written row
  can carry the responder of one answer and the record of another (`TcpRemoval.MixedRow`); that never
  happens, however far the input has been read, exactly when no qualifying answer is followed by one
  that does not qualify (`TcpRemoval.MixedIff`). The scanner's own chains, without id reuse, have one
  answer each (`TcpPostproc.ScanToResults`).
* The server answers the shared label of the NXDOMAIN test instead of denying it when the hexadecimal
  part begins with a small b, as it does for targets from 176.0.0.0 to 191.255.255.255. A resolver
  there that cuts at NXDOMAIN is reported as not optimising (`QminModes.NxVerdictIff`).
* The character in front of the base domain is not looked at, so a name that merely ends in the same
  letters is served like one below it (`QminZone.SeparatorIgnored`).
* Answers can be logged in another order than they arrived in, because a handler reads the clock before
  it takes the lock. No answer is counted twice all the same (`RateWindow.NoDoubleCount`), but the
  backward scan counts its whole window exactly when no answer inside it is followed in the log by one
  from before it (`RateWindow.WindowExactIff`), which a run can violate (`RateWindow.OvertakenRun`).

## Model

| member | source | states |
|---|---|---|
| Lcg.Generator.Next | src/generator/lcg.go:35-44 | the skip loop ends; the value returned is the next element of the orbit that is below the bound |
| Lcg.Generator.HasNext | src/generator/lcg.go:46-48 | true exactly while fewer than `stop` values have been returned |
| Lcg.ExactShift | src/generator/lcg.go:35-44 | n updates move a value x by the geometric sum times ((a-1)x + c) |
| Lcg.GeoDivisible | src/generator/lcg.go:35-44 | for a multiplier congruent to 1 mod 4, 2^k divides the geometric sum of n terms exactly when it divides n |
| Lcg.FullPeriod | src/generator/lcg.go:25-44 | two positions of the wrapped, truncated orbit agree modulo the modulus exactly when their distance is a multiple of it |
| Lcg.Visits | src/generator/lcg.go:35-44 | every residue is visited within one modulus of steps from anywhere |
| Lcg.SkipBound | src/generator/lcg.go:35-38 | from any position at most modulus - stop values are skipped before one below the bound |
| Lcg.NonNegativePermutes | src/generator/lcg.go:25-48 | if no update goes negative, the first `stop` values are 0..stop-1, each once |
| Lcg.PermutationIff | src/generator/lcg.go:25-48 | on 64-bit integers all draws give a permutation of 0..stop-1 exactly when stop <= 2^31 |
| Lcg.PowerOfTwoResidues | src/generator/lcg.go:25-48 | for stop = 2^h nothing is skipped and the values run through all residues once, even where they wrap |
| GenIps.DrawsPermute | src/scanner/tcp/tcp_scanner.go:439-452 | truncated to 32 bits the draws for a network of 2^h addresses, h up to 32, are all offsets below 2^h, each once |
| GenIps.Generate | src/scanner/udp/udp_scanner.go:249-263 | the k-th address sent is netip plus the k-th draw modulo 2^32; no address is sent twice, none outside the 2^h addresses from netip on, and an undisturbed run sends exactly those, an interval where nothing wraps |
| Reassembly.Base.ProcessPkt | src/common/base.go:142-211 | buffer and outcome after a packet, fragment or not |
| Reassembly.CheckComplete | src/common/base.go:165-194 | the counting scan over the buffer yields the assembled bytes or nothing |
| Reassembly.PicksTile | src/common/base.go:168-187 | when every pass of the scan finds a fragment, all fragments are used, each once, contiguously from 0 |
| Reassembly.AssembleIff | src/common/base.go:165-194 | delivery exactly when the fragments tile a datagram from byte 0 and one is a last fragment; the bytes are theirs in that order |
| Reassembly.StoredSince | src/common/base.go:158-197 | after any arrivals the buffer of an id holds exactly the fragments that arrived since a time when it held none |
| Reassembly.DeliverySound | src/common/base.go:155-197 | after any arrivals without empty fragments of the id, delivered bytes are those of all fragments that arrived under it since its buffer was last empty, each once, in strictly increasing offset order and contiguous from 0, with a last one among them; and the id leaves the buffer |
| Reassembly.DuplicateBlocks | src/common/base.go:158-187 | from any buffer with two fragments of one offset under the id, no later arrival under it is ever delivered |
| Reassembly.DeliveredIff | src/common/base.go:155-207 | pieces in any order, each any number of times, among any other packets: something is delivered under the id exactly when all pieces come before any is repeated, and then the payload |
| Reassembly.RepeatedFirstPiece | src/common/base.go:155-187 | for every split: all pieces arrive from an empty buffer, the first one twice, and nothing is ever delivered |
| Reassembly.EmptyPicked | src/common/base.go:168-187 | a scan that picks an empty fragment picks it in every further round |
| Reassembly.EmptyDelivers | src/common/base.go:165-194 | what is delivered when the scan ends on an empty fragment, and when |
| Reassembly.EmptyExample | src/common/base.go:155-207 | a last fragment and then an empty one at offset 0: an empty payload is delivered |
| Reassembly.PartialYieldsNothing | src/common/base.go:165-194 | with a piece missing nothing is delivered |
| Reassembly.CompleteYieldsPayload | src/common/base.go:165-194 | with all pieces there in any order the original bytes come out |
| Reassembly.RoundTrip | src/common/base.go:155-207 | a payload split into pieces arriving in any order among other packets: nothing until the last piece, then exactly the payload, or nothing if the protocol is neither UDP nor TCP, and the id is freed |
| Reassembly.FreedAfterwards | src/common/base.go:155-207 | once the last piece has been delivered the id stays out of the buffer |
| Reassembly.Unfragmented | src/common/base.go:155-211 | a packet with neither offset nor more-fragments bit is handed over with its own header and payload and leaves every buffer alone, at any point of any run |
| Reassembly.OwnFragmentsOnly | src/common/base.go:155-197 | buffer and outcomes of one id after any run are those of a run in which only its own fragments arrived |
| UdpTracker.UdpScanner.UpdateSyncInit | src/scanner/udp/udp_scanner.go:43-59 | hands out the next id, port and DNS id of the odometer |
| UdpTracker.UdpScanner.SendDns | src/scanner/udp/udp_scanner.go:147-165 | inserts the probe under its key, replacing what was there |
| UdpTracker.UdpScanner.HandlePkt | src/scanner/udp/udp_scanner.go:167-218 | moves the matching probe from the table to the writer with its answer, or changes nothing |
| UdpTracker.UdpScanner.Timeout | src/scanner/base_scanner.go:103-121 | removes exactly the entries older than ten seconds |
| UdpTracker.KthAllocation | src/scanner/udp/udp_scanner.go:43-59 | closed form of the k-th allocation |
| UdpTracker.SameKeyIff | src/scanner/udp/udp_scanner.go:43-59 | two allocations share a key exactly when their numbers differ by a multiple of 65536 times the ports |
| UdpTracker.ConsecutiveKeysDiffer | src/scanner/udp/udp_scanner.go:43-59 | that many consecutive allocations have pairwise different keys |
| UdpTracker.InExactlyOnePlace | src/scanner/udp/udp_scanner.go:147-218 | in every run each inserted probe is pending, queued, expired or displaced, in exactly one of them, and queued once at most |
| UdpTracker.QueuedByOwnResponse | src/scanner/udp/udp_scanner.go:190-214 | the queue grows only by a response that carries the port and DNS id of the probe it queues |
| UdpTracker.DisplacedByDistant | src/scanner/udp/udp_scanner.go:147-162 | a probe is displaced only by one a non-zero multiple of 65536 times the ports away |
| UdpTracker.NoDisplacement | src/scanner/udp/udp_scanner.go:43-59 | no displacement in a run of at most that many allocations |
| UdpAnswers.RunsStore | src/scanner/udp/udp_scanner.go:147-165 | in every run each entry of table and queue is what an insertion made of its allocation: target, request time, id, port and DNS id in closed form |
| UdpAnswers.RespondIff | src/scanner/udp/udp_scanner.go:176-214 | in every state that keeps the invariant a packet extends the queue exactly when it comes from the DNS port, its data decodes, and a pending probe has its port and DNS id; that probe is queued with the packet's source, time, records, flags, size and first time to live, and otherwise nothing changes |
| UdpAnswers.ResponseQueued | src/scanner/udp/udp_scanner.go:176-214 | the same in every run, with the target and the request time of the insertion |
| UdpAnswers.ExpiresIff | src/scanner/base_scanner.go:103-121 | in every run a pending probe expires at a step exactly when it is a sweep that reads, for its key, a time more than ten seconds after its insertion |
| TcpCodec.CodecInvertible | src/scanner/tcp/tcp_scanner.go:340-343 | port and sequence number determine the 32-bit id |
| TcpCodec.UnambiguousIff | src/scanner/tcp/tcp_scanner.go:194-283 | port and acknowledgement number name one id and one phase, over all ids, exactly when L mod 2048 is neither 0 nor 2047; a DNS query is far shorter than 2047 bytes |
| TcpTracker.TcpScanner.SendSyn | src/scanner/tcp/tcp_scanner.go:340-366 | starts a chain of one SYN and enters it under its port and sequence number |
| TcpTracker.TcpScanner.HandlePkt | src/scanner/tcp/tcp_scanner.go:176-338 | effect of SYN-ACK, FIN-ACK and response packets on chains and queue |
| TcpTracker.TcpScanner.WriteItem | src/scanner/tcp/tcp_scanner.go:159-174 | writes the head of the queue and removes the entry under its root's key |
| TcpTracker.RunsKeepInvariant | src/scanner/tcp/tcp_scanner.go:176-338 | in every reachable state every chain is a prefix of SYN, SYN-ACK, (FIN-)PSH-ACK with one id and acknowledgements seq+1, seq+1+L, and only complete chains are queued |
| TcpTracker.CompleteChainsFrozen | src/scanner/tcp/tcp_scanner.go:194-336 | a complete chain never changes again |
| TcpTracker.NoReuseNoClash | src/scanner/tcp/tcp_scanner.go:340-366 | without id reuse different chains have different ids |
| TcpTracker.WrittenByIdUnique | src/scanner/tcp/tcp_scanner.go:159-174 | what is written is complete, and without id reuse written chains with one id are equal |
| TcpPackets.PacketEffect | src/scanner/tcp/tcp_scanner.go:194-336 | in every reachable state, for every chain: a packet is added to it, with its source, time, numbers, flags and addresses, or queues it, exactly on the stated flags, port, acknowledgement and last node, and changes nothing else |
| TcpPackets.SynSent | src/scanner/tcp/tcp_scanner.go:340-366 | a SYN starts a chain with its port, sequence number, target and time and leaves the others |
| TcpPackets.ElsewhereKeeps | src/scanner/tcp/tcp_scanner.go:176-366 | a chain in the table is untouched by every step that does not concern it |
| TcpPackets.ConnectionQueued | src/scanner/tcp/tcp_scanner.go:194-336 | SYN, SYN-ACK, PSH-ACK with addresses and FIN-ACK with their acknowledgements, among anything that concerns other chains: the chain of the three packets is queued by the fourth and not before |
| TcpPostproc.ScanItemToStrarr | src/scanner/tcp/tcp_scanner.go:122-157 | the CSV row of a node, with the answers joined by commas |
| TcpPostproc.IpTextValue | src/scanner/tcp/tcp_scanner.go:127 | the text has four numbers between dots, which in base 256 give the address back |
| TcpPostproc.IpTextInjective | src/scanner/tcp/tcp_scanner.go:127 | different addresses have different dotted-quad texts |
| TcpPostproc.AnswerColumn | src/postprocessing/postproc_data_tcp_pure.py:73-83 | splitting the answer column gives back the addresses, and the control address is found in it exactly when it was among them |
| TcpPostproc.PostProcessor.FillIn | src/postprocessing/postproc_data_tcp_pure.py:61-86 | effect of one line on the record of its id |
| TcpPostproc.PostProcessor.ReadAll | src/postprocessing/postproc_data_tcp_pure.py:50-86 | the table after all lines is the fold of the lines |
| TcpPostproc.PostProcessor.WriteOut | src/postprocessing/postproc_data_tcp_pure.py:89-99 | a row for every id with full integrity, in order of first appearance |
| TcpPostproc.ClassAgrees | src/postprocessing/postproc_data_tcp_pure.py:20-26 | the class computed on texts is the one of the addresses |
| TcpPostproc.ChainUpdate | src/postprocessing/postproc_data_tcp_pure.py:61-86 | the three rows of a chain lead from a blank record, or from the record the chain left before, to the chain's record |
| TcpPostproc.PostprocessWritten | src/postprocessing/postproc_data_tcp_pure.py:50-99 | for any list of written chains, repeated or not, one row per chain whose answer has two addresses, one of them the control, with the class of SYN target, answer source and other record |
| TcpPostproc.RepeatedWrite | src/postprocessing/postproc_data_tcp_pure.py:50-99 | writing a chain again at any later point changes neither the table nor the result rows |
| TcpRemoval.IntegrityBits | src/postprocessing/postproc_data_tcp_pure.py:61-85 | after any rows the integrity bits of a record say which of SYN, SYN-ACK and qualifying answer occurred |
| TcpRemoval.FieldsFrom | src/postprocessing/postproc_data_tcp_pure.py:70-83 | responder and response time are those of the last answer, the record that of the last qualifying one |
| TcpRemoval.WrittenIff | src/postprocessing/postproc_data_tcp_pure.py:50-99 | for arbitrary rows an id is written exactly when its rows hold a SYN, a SYN-ACK and a qualifying answer, and its row is the fold of its rows |
| TcpRemoval.MixedIff | src/postprocessing/postproc_data_tcp_pure.py:70-86 | at no point of the input does a record mix two answers exactly when no qualifying answer is followed by one that does not qualify |
| TcpRemoval.RemovingWrittenIff | src/postprocessing/postproc_data_tcp_pure.py:75-82 | with the record removed under its id, an id is written exactly when the rows after its last bad answer are complete |
| TcpRemoval.RemovalAgreesIff | src/postprocessing/postproc_data_tcp_pure.py:75-82 | the script writes the id the removal would write exactly when a complete id stays complete after its last bad answer |
| TcpRemoval.ConnectionAgreesIff | src/postprocessing/postproc_data_tcp_pure.py:75-82 | where SYN and SYN-ACK stand before every answer, the two agree exactly when the id is not complete or has no bad answer |
| TcpRemoval.MixedRow | src/postprocessing/postproc_data_tcp_pure.py:70-99 | handshake, good answer, bad answer: a row is written with the responder of the bad answer and the record of the good one |
| TcpRemoval.LateAnswer | src/postprocessing/postproc_data_tcp_pure.py:75-99 | handshake, bad answer, good answer: script and removal differ although no good answer is followed by a bad one |
| TcpRemoval.TwoAnswersExample | src/postprocessing/postproc_data_tcp_pure.py:73-83 | rows of both kinds |
| TcpPostproc.ScanToResults | src/scanner/tcp/tcp_scanner.go:159-338 | the same for the written chains of every scanner run without id reuse |
| Traceroute.TracertParam.Zero | src/traceroute/traceroute_tcp.go:61-73 | what a restart resets and what it keeps |
| Traceroute.TracertParam.StartOn | src/traceroute/traceroute_tcp.go:494-497 | the restart on a new target |
| Traceroute.TracertParam.MayHandOff | src/traceroute/traceroute_tcp.go:268 | the answer decides whether the test step adds the handler to those waiting for the lock, or changes nothing |
| Traceroute.TracertParam.HandOff | src/traceroute/traceroute_tcp.go:278-293 | the state after the locked section is that of the enter step, and the answer says whether that step starts the DNS phase with this handler |
| Traceroute.AtMostOnePhase | src/traceroute/traceroute_tcp.go:266-306 | under every interleaving at most one DNS phase starts between two restarts, and the port tells whether one did |
| Traceroute.PortStaysUntilRestart | src/traceroute/traceroute_tcp.go:286-292 | once set, the DNS port keeps its value until the next restart |
| Traceroute.FirstResponderIff | src/traceroute/traceroute_tcp.go:268-292 | in every reachable state with a phase started: the record names the opener in every continuation up to the next restart exactly when it does now and all waiting handlers have the opener's address |
| Traceroute.RaceOverwritesResponder | src/traceroute/traceroute_tcp.go:268-292 | a run in which the record names another responder |
| Traceroute.StaleIff | src/traceroute/traceroute_tcp.go:266-306 | in every state in which the program may restart: after the restart, whatever follows up to the next one, the phase is opened by a handler that tested after it, exactly when no handler is waiting |
| Traceroute.StaleHandlerOpensNewPhase | src/traceroute/traceroute_tcp.go:268-292 | a state with a waiting handler in which the program restarts is reachable: the trace is finished and written first, and the old handler opens the new phase |
| Traceroute.TracertParam.TestExpiredIcmp | src/traceroute/traceroute_tcp.go:196-212 | the answer says to which list the test step will let a router's answer go, if to any |
| Traceroute.HopsRecorded | src/traceroute/traceroute_tcp.go:197-284 | after any run the hop lists hold, in order, the hop, time and address of every handler that entered since the last restart, and the target is that of the last restart |
| Traceroute.FinalIff | src/traceroute/traceroute_tcp.go:191-284 | in every reachable state in which a SYN-ACK was recorded, nothing is added to the hops of the SYN phase up to the next restart exactly when no handler is between test and lock |
| Traceroute.PortNamesHop | src/traceroute/traceroute_tcp.go:91-103 | the port of a SYN names its range and its hop, and so does the identification of a DNS probe that keeps the port of an answered SYN |
| QminName.DomainAssembly | src/qmin/scanner/scanner.go:134-164 | the printed name is the counting labels and the id label under the base domain, or nothing for contradictory flags |
| QminName.IdTokenRead | src/qmin/scanner/scanner.go:139-161 | lower-cased, the id label splits into its parts again, its depth is read back, and its length is that of its parts |
| QminServer.StripRTypes | src/qmin/dns_server/dns_server.go:79-89 | the log lines without their types, joined to one name |
| QminServer.UpdateProbeEntry | src/qmin/dns_server/dns_server.go:93-128 | the log, label count and extension flag after a query |
| QminServer.QminDnsServer.RequestResponse | src/qmin/dns_server/dns_server.go:131-316 | probe table and reply for every kind of query |
| QminZone.PredefinedReply | src/qmin/dns_server/dns_server.go:150-163 | a predefined record is answered as it stands and nothing is entered |
| QminZone.OutsideReply | src/qmin/dns_server/dns_server.go:171-175 | a name that does not end in the base domain, or is no longer, does not exist, and nothing is entered |
| QminZone.BelowReply | src/qmin/dns_server/dns_server.go:177-193 | for every other name the last label before the base domain decides: refused, denied, or entered under it and nowhere else |
| QminZone.SeparatorIgnored | src/qmin/dns_server/dns_server.go:171-177 | whatever stands in front of the base domain, the query is served as if it were a dot |
| QminTrack.QueryTracked | src/qmin/dns_server/dns_server.go:195-245 | a query changes what is logged under its own label only, also behind an induction probe, and there by exactly one update |
| QminTrack.RunTracked | src/qmin/dns_server/dns_server.go:195-245 | after any traffic the log under a label is the fold of the queries that carry it |
| QminLog.QueryLogged | src/qmin/dns_server/dns_server.go:93-128 | on tails of one name, the string test of the server is the comparison of depths |
| QminLog.ExtraFreezes | src/qmin/dns_server/dns_server.go:101-126 | once the repeated-TXT line is there no tail of the name changes log or count |
| QminLog.LogIsAccount | src/qmin/dns_server/dns_server.go:93-128 | for every sequence of tails the log is the strict running maxima of depth with their types, up to the first stray TXT query, which adds one line and ends it |
| QminLog.FullDepthAccount | src/qmin/dns_server/dns_server.go:79-128 | with TXT at full depth only: exactly the maxima, at most one extra line; the count is the longest query's label count; without the extra line the stripped log spells that query |
| QminLog.ExtraIff | src/qmin/dns_server/dns_server.go:123-126 | the extra line appears exactly when the full depth, first seen under another type, is asked for under TXT |
| QminLog.CompletesIff | src/qmin/dns_server/dns_server.go:93-128 | the full depth is recorded exactly when it was asked for and every stray TXT query was for the full name |
| QminLog.EarlyTxtBlocks | src/qmin/dns_server/dns_server.go:101-126 | type A, then TXT, one label short of full depth: the full name that follows is never recorded |
| QminPattern.AnalyzePattern | src/postprocessing/qmin/postproc_scan_result.go:117-175 | verdict, pattern, maximum and minimum for every pattern text, or the failures on malformed ones |
| QminPattern.ReadLine | src/postprocessing/qmin/postproc_scan_result.go:149-173 | what the loop makes of one log line |
| QminPattern.AnalyzeLog | src/postprocessing/qmin/postproc_scan_result.go:141-174 | a log of two or more lines: minimising, depth under the base domain and type per line from deepest to shallowest, number of lines as maximum, initial block of one-label lines as minimum |
| QminPattern.AnalyzeSingle | src/postprocessing/qmin/postproc_scan_result.go:126-140 | a log of one line: not minimising, and the id label alone is echoed |
| QminPattern.PrintedInjective | src/postprocessing/qmin/postproc_scan_result.go:157-173 | for alphabetic types two lists of lines have the same pattern exactly when they are equal |
| QminPattern.PatternDeterminesLog | src/postprocessing/qmin/postproc_scan_result.go:141-174 | a pattern determines the log it came from, the extra line included |
| QminPipeline.TailRouted | src/qmin/dns_server/dns_server.go:147-193 | a query for a tail of the name, in any spelling and maybe behind "_.", is entered under the name's id label with its labels if that label has ten characters or more, and refused otherwise |
| QminPipeline.ScannerAsks | src/qmin/scanner/scanner.go:134-164 | the name the scanner prints is such a query |
| QminPipeline.ServedIff | src/qmin/dns_server/dns_server.go:183-186 | the scanner's queries are dealt with exactly when hexadecimal part, depth and nonce have eight digits together |
| QminPipeline.ServerAccount | src/qmin/dns_server/dns_server.go:195-245 | the server's log after any traffic is the account of the label's own queries |
| QminPipeline.TxtAnsweredIff | src/qmin/dns_server/dns_server.go:276-312 | a TXT query for the full name gets the log exactly when no stray TXT query was for a shorter name, and otherwise a delegation |
| QminPipeline.TxtRead | src/qmin/scanner/scanner.go:271-290 | the scanner reads the resolver and the log back out of the answer text |
| QminPipeline.ScanToPattern | src/qmin/scanner/scanner.go:134-164 | end to end, with TXT asked for the full name only and any other traffic in between: scanner's name, log, answer, its reading and its analysis report the maxima of query depth with their types under the common base domain, or the one line there is |
| QminInduced.CommonProbe | src/qmin/dns_server/dns_server.go:195-244 | if nobody asks for the plain name before the marked one, both are kept in the marked one's probe |
| QminInduced.BothAccounts | src/qmin/dns_server/dns_server.go:198-222 | that probe holds the account of the marked name and, apart from it, that of the plain name |
| QminInduced.RedirectIff | src/qmin/dns_server/dns_server.go:249-312 | a query for the marked name is redirected to the full plain name exactly when the marked name is complete, unless TXT can already be answered |
| QminInduced.RedirectAsks | src/qmin/dns_server/dns_server.go:276-288 | following the redirection is asking for the full plain name |
| QminInduced.InducedAnswerIff | src/qmin/dns_server/dns_server.go:249-312 | TXT for the full plain name: both logs, the marked one's log, or a delegation, by the completeness of the two names |
| QminInduced.InductionScan | src/qmin/dns_server/dns_server.go:195-257 | end to end for induction probes: the answer carries the accounts of both names and the scanner reads both back |
| QminInduced.InducedVerdict | src/postprocessing/qmin/postproc_scan_result.go:241-249 | the stored row is merged as a positive induced verdict exactly when the induced log has two or more lines |
| QminModes.DnsQuery | src/qmin/scanner/scanner.go:263-299 | what the scanner makes of a response code and answers: the first TXT answer decides |
| QminModes.NxoptiAnswered | src/qmin/dns_server/dns_server.go:258-275 | in every reachable state a name under an "-nxopti" label is answered exactly when it begins with a small b, and denied otherwise |
| QminModes.NxReplies | src/qmin/scanner/scanner.go:320-326 | the replies to the two names of the test and to the label they share, whatever was asked before |
| QminModes.NxVerdictIff | src/qmin/scanner/scanner.go:320-365 | a resolver that cuts at NXDOMAIN is merged as optimising exactly when its hexadecimal part does not begin with a small b, and every other one as not optimising |
| QminModes.ModeReply | src/qmin/dns_server/dns_server.go:276-302 | a tail of a "-qminMode" name is denied until the full name is complete; then TXT brings the log and other types nothing |
| QminModes.StrictSeen | src/postprocessing/qmin/postproc_scan_result.go:212-214 | as long as the full name was not asked for, a resolver that stops at the denial is merged as strict |
| QminModes.RelaxedSeenIff | src/postprocessing/qmin/postproc_scan_result.go:224-234 | a resolver that goes on to the full name gets the log and is merged as relaxed exactly unless its first query was already the TXT query for the full name |
| QminModes.PlainReply | src/qmin/dns_server/dns_server.go:276-312 | a tail of a plain name, of any type: delegation until the full name is complete, then the log for TXT and nothing for other types |
| QminModes.MinimisesIff | src/postprocessing/qmin/postproc_scan_result.go:117-140 | end to end: reported as minimising exactly unless the first query was already the TXT query for the full name |
| QminModes.ResolverFirst | src/qmin/dns_server/dns_server.go:224-245 | the resolver of a probe is the sender of the first query with its label |
| QminModes.HostOf | src/qmin/dns_server/dns_server.go:236 | the sender is the part before the port |
| QminMerge.QminVerdict | src/postprocessing/qmin/postproc_scan_result.go:178-301 | a row has a verdict on plain minimisation exactly if it is a plain test with a well-formed requester, and a positive one exactly when its log has more than one line |
| QminMerge.CombineResults | src/postprocessing/qmin/postproc_scan_result.go:306-363 | the merged summary of two |
| QminMerge.PostProcessor.ProcessFile | src/postprocessing/qmin/postproc_scan_result.go:435-449 | the table after a file's rows |
| QminMerge.DescribesNext | src/postprocessing/qmin/postproc_scan_result.go:306-363 | merging one more row keeps the summary describing all its rows |
| QminMerge.TableDescribes | src/postprocessing/qmin/postproc_scan_result.go:435-441 | the table has exactly the keys that occur, each with the joined verdicts and mode, error counts, set of requesting addresses and number of its rows |
| QminMerge.OrderFree | src/postprocessing/qmin/postproc_scan_result.go:306-363 | any permutation of the rows and any split into files give the same summaries |
| QminMerge.UncertainIff | src/postprocessing/qmin/postproc_scan_result.go:311-352 | for plain and induced minimisation "uncertain" exactly when both verdicts occurred, one verdict exactly when it alone did, "not observed" exactly when neither did; the same for the mode; for the NXDOMAIN optimisation, exactly when two values clash |
| QminRaw.MergedMode | src/postprocessing/qmin/postproc_scan_result.go:212-234 | from the stored rows: strict exactly if a mode row was denied, relaxed exactly if a mode row's log has a bar, "both" or nothing accordingly |
| QminRaw.MergedQmin | src/postprocessing/qmin/postproc_scan_result.go:252-301 | from the stored rows of no other test with a well-formed requester: a bar in the log is a yes, none is a no |
| QminRaw.MergedInduction | src/postprocessing/qmin/postproc_scan_result.go:241-249 | likewise from the second log of the induction rows |
| QminRaw.MergedNx | src/postprocessing/qmin/postproc_scan_result.go:215-239 | the value is that of the NXDOMAIN rows, as 8-bit numbers, and uncertain exactly on a clash |
| QminRaw.MergedErrors | src/postprocessing/qmin/postproc_scan_result.go:212-220 | an error text is counted once per failed row that is neither a denied mode row nor an NXDOMAIN row |
| QminRaw.MergedRequesters | src/postprocessing/qmin/postproc_scan_result.go:212-222 | the requesting addresses are those of the rows other than "NONE", and the count is the number of rows |
| QminRaw.EntryOf | src/postprocessing/qmin/postproc_scan_result.go:435-441 | the table has an entry exactly for the protocol and resolver of some row, and it is theirs |
| QminRaw.StopsOnlyAt | src/postprocessing/qmin/postproc_scan_result.go:251 | the program stops exactly at a row that tests plain minimisation and whose log cannot be read |
| RateProtocol.RateTest.Launch | src/ratelimit/ratelimit.go:508-515 | one turn of the launching loop, skipping retired sub-routines |
| RateProtocol.RateTest.MeasureRound | src/ratelimit/ratelimit.go:469-493 | the measured pair and the report: stay or retire |
| RateProtocol.RateTest.SendReport | src/ratelimit/ratelimit.go:474-493 | the report enters the channel when there is room |
| RateProtocol.RateTest.Collect | src/ratelimit/ratelimit.go:516-531 | one received report, and whether the barrier opens |
| RateProtocol.RateTest.CloseRound | src/ratelimit/ratelimit.go:532-572 | the round's total and maximum, then the next rate or the end |
| RateProtocol.RunsKeepInvariant | src/ratelimit/ratelimit.go:496-572 | in every interleaving: where each sub-routine stands, whose reports the channel holds, what the counter counts, and what the totals are |
| RateProtocol.BarrierExact | src/ratelimit/ratelimit.go:516-531 | the barrier opens exactly when every sub-routine launched this round has reported and been heard; then the channel is empty and the next rate is on the curve |
| RateProtocol.Progress | src/ratelimit/ratelimit.go:507-572 | no deadlock: an unfinished test has a possible step |
| RateProtocol.RunsEnd | src/ratelimit/ratelimit.go:507-572 | every run is bounded, has at most one round per rate, and can go no further exactly when it has finished |
| RateProtocol.RetiresOnce | src/ratelimit/ratelimit.go:519-523 | a sub-routine that retires in round q has measured rounds 0..q and never another |
| RateProtocol.RoundTotal | src/ratelimit/ratelimit.go:540-556 | the total of a round is over exactly the sub-routines not retired before it, and is at most the reported maximum |
| RateProtocol.CompletedRun | src/ratelimit/ratelimit.go:553-561 | after a completed run all have retired and the maximum is the greatest round or zero |
| RateVerdicts.RetiresIff | src/ratelimit/ratelimit.go:469-493 | in every completed run a sub-routine retires in round q exactly when it measured q and q is the last rate, or the threshold counts and its rate is below the threshold times its share, the rate of the round over one or over those not retired before |
| RateVerdicts.LastRoundIff | src/ratelimit/ratelimit.go:469-493 | the same for the last round it measures |
| RateVerdicts.WholeCurve | src/ratelimit/ratelimit.go:469-572 | if every measured rate reaches its share, every sub-routine measures the whole curve |
| RateVerdicts.FirstMissEnds | src/ratelimit/ratelimit.go:482-493 | with one sub-routine the first rate it misses ends the run |
| RateVerdicts.RoundTarget | src/ratelimit/ratelimit.go:540-549 | the total of a round carries the rate of that round |
| RateWindow.RateData.HandlePkt | src/ratelimit/ratelimit.go:705-714 | logs the answer and remembers the first one |
| RateWindow.RateData.CountSent | src/ratelimit/ratelimit.go:464 | counts a query sent |
| RateWindow.RateData.CalcLastSecondRate | src/ratelimit/ratelimit.go:103-149 | the rates of the round from the backward scan with early exit, and the reset |
| RateWindow.EarlyExitIff | src/ratelimit/ratelimit.go:126-134 | the early exit counts the whole window exactly when no answer inside it is followed in the log by one older than the window |
| RateWindow.NoDoubleCount | src/ratelimit/ratelimit.go:103-149 | in every run, answers logged in any order: the windows are disjoint, no count exceeds the answers inside its window, and together they count no answer twice |
| RateWindow.WindowExactIff | src/ratelimit/ratelimit.go:118-134 | a calculation of a run counts its whole window exactly when no logged answer inside it is followed by one that arrived before it |
| RateWindow.OvertakenRun | src/ratelimit/ratelimit.go:656-714 | a run whose handlers log in the opposite order, so that the answer inside the window is not counted |
| RateWindow.MovedWindowIff | src/ratelimit/ratelimit.go:118-134 | a window moved to the first answer logged counts every answer logged since the last calculation that arrived before its end, exactly when none of them arrived before the first one logged |
| RateWindow.PairMeasured | src/ratelimit/ratelimit.go:103-149 | in every run the pair of a calculation: its rates times the interval are a thousand times the queries sent since the last calculation and the answers counted, the window given by the first answer logged since then, and loss is the difference |
| RateWindow.FullCountIs | src/ratelimit/ratelimit.go:131-133 | the full count is the number of logged answers inside the window |
| RateTotals.SubTotal | src/ratelimit/ratelimit.go:139-145 | a sub-routine's receiving rates over all its rounds add up to at most the rate of the answers it has logged |
| RateTotals.SwapSums | src/ratelimit/ratelimit.go:540-556 | added up round by round or sub-routine by sub-routine, the rates are the same |
| RateTotals.CalculationMeasures | src/ratelimit/ratelimit.go:469-493 | the pair that a sub-routine's calculation appends at the current rate is one the measuring step can take, and the pairs stay those of the calculations |
| RateTotals.TotalsBounded | src/ratelimit/ratelimit.go:540-556 | in every reachable state of a test whose pairs come from calculations, the totals of all rounds add up to at most the rate of all logged answers |

## Left out

- Packet capture, raw sockets, packet encoding and decoding, CSV, gzip and parquet files, logging, configuration: input, output and library code.
- The two-byte length test on TCP DNS payloads: whether a payload decodes is an input of the step.
- The floating-point logarithm in the permuter's initialisation: taken as the exact least power of two that is at least `stop`.
- The linked `Next` pointers of TCP chains: modelled as one sequence per root, so aliasing between nodes is not captured; each packet handled by the TCP scanner is one step.
- The timeout sweep over the TCP table: a step of the system only; the loop itself is `UdpTracker.UdpScanner.Timeout`.
- Reassembly.DeliverySound: asks that no fragment of the id is empty (for empty ones see Reassembly.EmptyDelivers); the buffer is keyed by the identification alone, as in the program, whatever the addresses.
- Reassembly.EmptyDelivers: follows the loop without its debug line, which reads the application layer of the fragment it adds; whether an empty fragment has one is the packet library's decision.
- Reassembly.RoundTrip: each piece arrives once; with repeated pieces see Reassembly.DeliveredIff.
- The seconds for which a traceroute waits after its last trace has finished: they only delay the restart.
- The answers of a traceroute's DNS response, FIN-ACKs, the sending loops, the timeout and the writing of results: together they are one step that may change every field but those the hand-off and the hop lists work with.
- Traceroute.TracertParam.TestExpiredIcmp: without the comparison with the lowest and highest port, which every port of a known range passes, and without the length check of the quoted packet.
- TcpPostproc.ScanItemToStrarr: the time and the port stay numbers, because their text comes from library formatting.
- Malformed lines and addresses in the script's input, on which it stops.
- QminServer.QminDnsServer.RequestResponse: does not answer SERVFAIL where the DNS library refuses the text of a record, and keeps no time of last use; the clean-up thread that uses it is left out.
- Record types with the same number but without a mnemonic: a type is its mnemonic, and all unknown ones are one type.
- QminPipeline.ScanToPattern: follows plain probes; induction probes are in QminInduced.InductionScan, mode and NXDOMAIN probes in QminModes.
- QminModes.NxVerdictIff: a resolver that cuts at NXDOMAIN answers both names with the reply to the shared label if that was a denial, and any resolver hands the server's reply on; transport errors and the retry after a timeout are left out.
- QminModes.DnsQuery: begins where a response has arrived; the transports and their errors are left out.
- QminPattern.PatternDeterminesLog: types are alphabetic; a log that does not begin at the id label prints a trailing dash, which the lemma covers.
- Address lookups, pattern matching against known resolvers, resolver type and file name in merged rows: the last two come from whichever row is first.
- The table of resolver pairs: it is looked up under one key and stored under another, so no count can be claimed.
- QminMerge.PostProcessor.ProcessFile: leaves the table of pairs alone; a row whose analysis stops the program is reported as a failure, after which no table is written; reading in chunks of 128 rows is not modelled.
- RateWindow.RateData.CalcLastSecondRate: one step, although the program calculates without the lock that the packet handler takes.
- Port sharing between resolvers in the rate test's sender: the modulus used when sending differs from the table's key.
- Floating-point rounding in rates: rates are exact numbers, and the sending interval is at least one millisecond.
- RateProtocol.RateTest.MeasureRound: the sending loop is represented by the pair it measures; RateTotals.CalculationMeasures says where that pair comes from.
- The limiters that pace sending, and real clocks: only a non-decreasing time, and sleeps that last at least as long as asked, are assumed.
