# Verified model of an IPv6 stub router

The repository is a userspace IPv6 stub router with NAT64, DNS forwarding, SRP registration and
mDNS publishing. Time and randomness are passed in, so its components are state machines over
maps and octet strings. This project models the hardest of them in Dafny and proves what they
keep over every run. `dafny verify dfyconfig.toml` checks everything.

## What is proved

* **Minimal denial** (`Successor`, `TypeBitmap`). The successor of a name is exact: the least
  valid name above it in canonical order. Both bitmap writers and all three readers agree, and
  an accepted bitmap is the only one for its types.
* **Name compression and TCP framing** (`NameCompression`, `NameWriter`, `NameRoundTrip`,
  `TcpFrames`). A written message reads back if and only if the parser's limits suffice for it.
  The deframer conserves the stream for every way of cutting it up.
* **IP fragmentation** (`IpPacket`, `IpHeaders`, `IpFragmentBytes`, `Reassembly`, `ReassemblyOrder`,
  `Checksum`). Fragments in any order, among any other traffic, give back the packet.
* **NAT64** (`Ports`, `PortScan`, `BindingTables`, `Flows`, `BindingSweep`, `Bindings`,
  `FlowRuns`, `UdpSegment`, `TransportSums`, `Translator`, `Pref64`, `Selection`). The indexes stay consistent in
  every reachable state, allocation cannot fail once admitted, and answers come back to the
  host that asked.
* **Router advertisements** (`RouteExports`, `Election`). Promises leave the table only by expiry
  or after three withdrawals; the least prefix wins the election.
* **mDNS publisher** (`Publisher`), **SRP registry** (`SrpRegistry`), **forwarding resolver**
  (`Waiters`, `Aliases`, `Resolver`, `ResolverCache`). Ready is earned; names change hands only
  after a lease; every accepted client is answered exactly once and in bounded time.

State that the source updates in place is a class; its `Valid()` is the invariant and its ghost
fields hold the history a property speaks about. Each method's effect is tied to a function or
predicate on values, and the run-level results are lemmas about those.

## Where the code does less than one might expect

* The parser follows at most 64 pointers, the writer has no such limit. A message with 66 names
  each nested in the next is written, and then refused by the same program's parser
  (`NameRoundTrip.DeepChainIsRefused`). Encoding ends with a parse of its own output
  (`src/dns/wire.rs:358`), so such a message fails there and is never sent.
  `NameRoundTrip.MessageRoundTrip` gives the exact condition.
* A publication that waits for the first announcement of changed records ignores conflicts
  (`src/mdns/publish.rs:777-781`) and is then ready on probes older than the conflict.
  `Publisher.IgnoredConflict` shows it for every such publication, `Publisher.ConflictIgnoredRun`
  reaches one.
* A received message is shown to the publications in order, and the walk ends with an error at the
  first listening one whose projection is stale (`src/mdns/publish.rs:782-785`). Later ones never
  see a conflict in it: `Publisher.KeptConflict`, and the run `Publisher.ConflictKeptRun`.
  `Publisher.ReadyIsEarned` proves that these two, and a change of unique names that the digest
  hides, are exactly what breaks "three probes since the last conflict".
* A failed publication that shared records replace goes through the probing state, finds nothing
  to probe and becomes ready without ever announcing (`src/mdns/publish.rs:334-341`, `487-494`):
  `Publisher.SharedAfterFailure` and `Publisher.SilentlyReadyRun`. The digest that guards a
  projection does not cover which records are unique, so a projection that loses its unique names
  under the same digest has the same effect; `Publisher.Queue.Poll` names both causes.

## Model

| member | source | states |
|---|---|---|
| `Successor.Next` | src/discovery_proxy.rs:422-452 | The name after a name in a zone is the least valid, lower-case zone name strictly above it in the canonical order; the result is the apex exactly when there is none. |
| `Successor.NextBeyond` | src/discovery_proxy.rs:434-451 | When no label fits below, the carrying loop finds the least name above everything under the current one, or proves that the name is the greatest. |
| `Successor.NextSibling` | src/discovery_proxy.rs:435-448 | One turn of that loop gives the least admissible greater sibling label, by extension or by increment past upper case, or there is none. |
| `Successor.LastBelow255` | src/discovery_proxy.rs:441 | The scan from the end finds the last octet below 255. |
| `Successor.OrderIsStrictTotal` | src/discovery_proxy.rs:422-452 | Canonical order of section 6.1 of RFC 4034 is a strict total order on names. |
| `Successor.LessTransitive` | src/discovery_proxy.rs:422-452 | It is transitive. |
| `Successor.LeastAboveIsUnique` | src/discovery_proxy.rs:422-452 | At most one name is the least above another, so nothing lies between a name and its successor. |
| `TypeBitmap.BitmapValid` | src/dns/wire.rs:645-662 | Accepts exactly lists of blocks with rising windows, 1 to 32 octets each, none ending in zero. |
| `TypeBitmap.BitmapHas` | src/mdns/cache.rs:401-414 | Is membership in the listed types, for every accepted bitmap. |
| `TypeBitmap.ReadBitmap` | src/discovery_proxy.rs:383-407 | Adds exactly the listed types the caller accepts; fails exactly on a malformed bitmap or when more than 1024 types would be held. |
| `TypeBitmap.InsertType` | src/discovery_proxy.rs:376-382 | Fails exactly when the set would pass 1024. |
| `TypeBitmap.EncodeTypes` | src/discovery_proxy.rs:408-421 | For every set of types the result is accepted and lists exactly the set. |
| `TypeBitmap.PublisherBitmap` | src/mdns/publish.rs:131-146 | The second builder: accepted, and lists exactly the kinds other than 47. |
| `TypeBitmap.Canonical` | src/dns/wire.rs:645-662 | Two accepted bitmaps that list the same types are the same octets. |
| `TypeBitmap.BitmapUnique` | src/dns/wire.rs:645-662 | The same for lists of blocks within any range of windows. |
| `TypeBitmap.WritersAgree` | src/discovery_proxy.rs:408-421 | Both builders give the same octets, and re-encoding what an accepted bitmap lists gives it back. |
| `NameCompression.Parser.ReadName` | src/dns/wire.rs:434-486 | Succeeds if and only if a name is spelled at the position, every pointer goes to an earlier known label, at most 64 pointers are followed and the work limit is kept; returns exactly those labels, the end of the name, and marks exactly its labels known. |
| `NameCompression.EncodesUnique` | src/dns/wire.rs:434-486 | A position spells at most one name. |
| `NameCompression.ScanExact` | src/dns/wire.rs:434-486 | The parser loop fails exactly when no readable name is there. |
| `NameCompression.ScanSound` | src/dns/wire.rs:434-486 | What the loop returns is spelled at the position. |
| `NameWriter.Dictionary.WriteName` | src/dns/wire.rs:370-403 | Appends the name with its longest known suffix replaced by a pointer and remembers new suffixes within the limits on offsets, entries and octets. |
| `NameRoundTrip.WriteKeepsSound` | src/dns/wire.rs:370-403 | Every dictionary entry is an earlier position that the parser knows and that spells the stored suffix; writing keeps this. |
| `NameRoundTrip.ReadOne` | src/dns/wire.rs:434-486 | A freshly written name reads back exactly when its pointer depth and work are within the limits. |
| `NameRoundTrip.MessageRoundTrip` | src/dns/wire.rs:364-486 | A whole message of names and other octets reads back, case kept and ends exact, if and only if no name needs more than 64 pointers and the total work is within 262144. |
| `NameRoundTrip.ShallowNamesSurvive` | src/dns/wire.rs:364-486 | Names of at most 64 labels always read back, within the work limit. |
| `NameRoundTrip.DeepChainIsRefused` | src/dns/wire.rs:434-486 | Counterexample to an unconditional round trip: 66 nested names are written and then refused by the parser. |
| `TcpFrames.Deframer.constructor` | src/dns/wire.rs:841-851 | An empty deframer. |
| `TcpFrames.Deframer.InputWithLimit` | src/dns/wire.rs:864-930 | Accepts all octets or none, and exactly when lengths, ready messages and the reservation are within bounds; in every state popped messages, ready messages and the partial buffer are the unique framing of the accepted octets, at most 32 are ready and the byte count is exact. |
| `TcpFrames.Deframer.Fits` | src/dns/wire.rs:869-902 | The header-only pass decides exactly what the commit pass would reach. |
| `TcpFrames.Deframer.Commit` | src/dns/wire.rs:903-929 | The commit pass yields exactly the messages and the rest of the stream. |
| `TcpFrames.Deframer.Pop` | src/dns/wire.rs:931-935 | Hands out the oldest ready message and counts it off. |
| `TcpFrames.FramingIsUnique` | src/dns/wire.rs:852-859 | Framed messages and an incomplete rest are recovered from their octets. |
| `TcpFrames.SplitIsWhole` | src/dns/wire.rs:864-930 | Splitting a stream into messages and a rest loses nothing. |
| `TcpFrames.MoreAccepted` | src/dns/wire.rs:864-930 | What more input does to the whole stream is what it does to the partial buffer. |
| `Checksum.Compute` | src/ipv4/wire.rs:5-14 | The checksum loop computes the complement of the folded sum without exceeding 32 bits, for odd and even lengths. |
| `Checksum.AddWords` | src/wire.rs:62-72 | The word loop adds the big-endian words and stays within 32 bits. |
| `Checksum.Carry` | src/wire.rs:73-76 | The carry loop computes the one's complement representative. |
| `Checksum.FilledVerifies` | src/wire.rs:61-77 | A checksum filled into its zeroed field verifies to zero with any pseudo-header, also as 0xffff for zero. |
| `Checksum.ZeroExactly` | src/wire.rs:61-77 | A sum verifies exactly if it is a positive multiple of 65535. |
| `TransportSums.FilledIsRight` | src/nat64/translate.rs:442-459 | The TCP, UDP and ICMPv6 checksums of translated packets verify to zero, and nothing else changes. |
| `TransportSums.IcmpBody` | src/wire.rs:410-424 | An ICMPv6 body of 4 to 65535 octets is sent with a checksum that verifies to zero; others are errors. |
| `UdpSegment.SealVerifies` | src/nat64/translate.rs:397-412 | A sealed UDP segment verifies, carries a checksum and is otherwise unchanged. |
| `UdpSegment.OutwardMeaning` | src/nat64/translate.rs:182-228 | On the way out only source port and checksum change, and the checksum is right for the new addresses. |
| `UdpSegment.InwardMeaning` | src/nat64/translate.rs:442-459 | On the way in only destination port and checksum change, and the checksum is right for the new addresses. |
| `UdpSegment.Checksum4Exactly` | src/nat64/translate.rs:397-412 | A segment verifies under IPv4 exactly if its words, its length, 17 and the words of both addresses add up to a positive multiple of 65535. |
| `UdpSegment.Checksum6Exactly` | src/wire.rs:61-77 | The same under IPv6, with all eight words of each address. |
| `IpPacket.FragmentPacket` | src/ip_reassembly.rs:241-292 | Returns the packet itself, an error, or fragments that are exactly the pieces of its payload, cut at multiples of eight and none longer than the MTU. |
| `IpPacket.CutUp` | src/ip_reassembly.rs:266-291 | The loop makes one piece for each chunk of the payload. |
| `IpHeaders.Parse4Exactly` | src/ipv4/wire.rs:31-95 | Octet by octet, which IPv4 headers are accepted, and the lengths, offset and flag read from them. |
| `IpHeaders.OptionsExactly` | src/ipv4/wire.rs:31-95 | The option walk accepts exactly lists of whole options, with zero padding at the end. |
| `IpHeaders.Fragment4Exactly` | src/ip_reassembly.rs:152-240 | Which IPv4 packets are fragments, which are errors, and every field of the fragment. |
| `IpHeaders.Fragment6Exactly` | src/ip_reassembly.rs:152-240 | The header where at most fifteen extension headers end decides: no fragment, exactly the fragment its octets tell of, or an error. |
| `IpHeaders.EndlessHeaders` | src/ip_reassembly.rs:152-240 | Longer or cut-off chains of extension headers are errors. |
| `IpHeaders.SplittableExactly` | src/ip_reassembly.rs:241-265 | Which packets are fragmented at all, in octets. |
| `IpFragmentBytes.Piece6Parses` | src/ip_reassembly.rs:152-240 | An IPv6 fragment parses back to the key, header, offset, flag and data it was made from. |
| `IpFragmentBytes.Piece4Parses` | src/ip_reassembly.rs:152-240 | The same for an IPv4 fragment, with its header checksum. |
| `IpFragmentBytes.Completes6` | src/ip_reassembly.rs:139-151 | Completing a collected IPv6 header gives the original packet octet for octet. |
| `IpFragmentBytes.Completes4` | src/ip_reassembly.rs:139-151 | Completing a collected IPv4 header gives the packet under the new identification. |
| `IpFragmentBytes.Restored4Meaning` | src/ip_reassembly.rs:139-151 | That packet differs from the original only in identification, flags and header checksum, and the checksum verifies. |
| `IpFragmentBytes.Filled4` | src/ipv4/wire.rs:96-113 | The header checksum the fragmenter writes verifies. |
| `Reassembly.Reassembler.InputScoped` | src/ip_reassembly.rs:54-138 | One packet does to the table what the specification says: expiry, overlap and size checks, insertion, delivery; and keeps it within its limits. |
| `Reassembly.Reassembler.Expire` | src/ip_reassembly.rs:48-50 | Drops exactly the contexts whose time is over. |
| `Reassembly.Reassembler.Accept` | src/ip_reassembly.rs:67-137 | The same for one parsed fragment. |
| `Reassembly.InputKeepsOk` | src/ip_reassembly.rs:54-138 | Every input keeps contexts disjoint, incomplete and within the limits. |
| `Reassembly.InputFragmentFrame` | src/ip_reassembly.rs:54-138 | A fragment touches no other datagram. |
| `Reassembly.FragmentFate` | src/ip_reassembly.rs:67-112 | A malformed fragment is dropped alone; one whose header differs, that shares an octet with a part or contradicts a known end takes the whole datagram with it; any other leaves all parts in place. |
| `Reassembly.ConflictExactly` | src/ip_reassembly.rs:86-97 | The overlap test means a shared octet, and the end tests a contradiction. |
| `Reassembly.Gather` | src/ip_reassembly.rs:127-130 | The final loop concatenates the parts. |
| `Reassembly.RunEnd` | src/ip_reassembly.rs:116-125 | The contiguity loop finds how far the parts reach without a gap. |
| `Reassembly.Conflicts` | src/ip_reassembly.rs:86-97 | The overlap test is true exactly when some part overlaps or passes a known end. |
| `ReassemblyOrder.AnyOrder` | src/ip_reassembly.rs:54-138 | Fed in any order among other traffic, the fragments of one datagram yield nothing until the last and then the datagram, unless refused for lack of room. |
| `ReassemblyOrder.FragmentThenReassemble` | src/ip_reassembly.rs:241-292 | Fragmenting any exact packet over the MTU and feeding the fragments in any order among other traffic within 60 s gives nothing until the last one and then the packet (IPv4: new identification, flags cleared), if none is refused for lack of room. |
| `ReassemblyOrder.RoomSuffices` | src/ip_reassembly.rs:98-105 | With enough room at the start none is refused. |
| `ReassemblyOrder.FragmentThenReassembleWithRoom` | src/ip_reassembly.rs:54-138 | The same round trip from a condition on the table at the start alone. |
| `Ports.Registry.ClaimPort` | src/service_io/ports.rs:58-97 | Grants a free legal entry within the caps under a new generation number, or fails without effect. |
| `Ports.Registry.Release` | src/service_io/ports.rs:30-47 | Dropping a lease frees its own entry and no later one of the same port. |
| `Ports.ClaimKeepsOk` | src/service_io/ports.rs:58-97 | Counters stay true counts within 256 and 4096 and generation numbers stay unique. |
| `Ports.DropKeepsOk` | src/service_io/ports.rs:30-47 | So they do when a lease is dropped. |
| `Ports.ClaimThenDrop` | src/service_io/ports.rs:30-97 | Dropping a fresh claim restores all entries and counters. |
| `Ports.DropIsSelective` | src/service_io/ports.rs:30-47 | A stale lease drops nothing, a live one only its own entry. |
| `Ports.ClaimExactly` | src/service_io/ports.rs:58-97 | Which claim fails with which error, and the whole new state of one that does not, in numbers. |
| `Ports.DropExactly` | src/service_io/ports.rs:30-47 | A drop frees the entry exactly if it is still the one given. |
| `PortScan.Allocate` | src/nat64/bindings.rs:302-343 | The scan returns the requested port if it is free, else another free one; it fails only if at least 8192 numbers are taken; with fewer taken, range and parity of a request from 1024 are kept, and with fewer than 511 those of a lower one. |
| `PortScan.ScanRange` | src/nat64/bindings.rs:334-340 | One range is searched completely from a random start. |
| `PortScan.CandidatesDiffer` | src/nat64/bindings.rs:334-340 | No candidate is tried twice. |
| `Bindings.Table.Expire` | src/nat64/bindings.rs:157-201 | The early-exit sweep equals a full sweep, keeps every index consistent and reports exactly the released ports. |
| `Bindings.Table.Forget` | src/nat64/bindings.rs:176-197 | Taking out one session keeps all five indexes and the port registry consistent; the last one frees the port. |
| `Bindings.Table.Admit` | src/nat64/bindings.rs:213-226 | Decides by true counts, whatever the counters. |
| `Bindings.Table.Touch` | src/nat64/bindings.rs:227-247 | Opens or renews a session of an existing binding and keeps the lower bound on all expiries. |
| `Bindings.Table.Bind` | src/nat64/bindings.rs:257-278 | Gives a new key a port no one holds; with nothing reserved by the caller it cannot fail. |
| `Bindings.Table.Outgoing` | src/nat64/bindings.rs:248-279 | A packet from the stub: refused with only a sweep, or bound; never refused for lack of a port or lease once admitted. |
| `Bindings.Table.UdpOut` | src/nat64/bindings.rs:248-279 | The same for UDP with its timeout. |
| `Bindings.Table.UdpIn` | src/nat64/bindings.rs:280-301 | Reaches the one owner of the port that the filter lets through, and fails only by admission. |
| `Bindings.Table.ErrorIn` | src/nat64/bindings.rs:99-111 | Finds the owner exactly for a live exact session and changes nothing. |
| `Bindings.Table.IcmpOut` | src/nat64/bindings/icmp.rs:35-65 | Echo identifiers are bound like ports. |
| `Bindings.Table.IcmpIn` | src/nat64/bindings/icmp.rs:66-87 | Only an existing exact session lets an echo in. |
| `Bindings.Table.RetainDomains` | src/nat64/bindings.rs:80-94 | Keeps exactly what uses a given prefix, drops the other leases and rebuilds true counters. |
| `Bindings.Table.Clear` | src/nat64/bindings.rs:202-212 | Empties everything and releases every lease. |
| `Bindings.RebuildHosts` | src/nat64/bindings.rs:85-91 | The counting loops give the true counts per host. |
| `BindingTables.WithoutKeepsConsistent` | src/nat64/bindings.rs:176-197 | Removing a session preserves: bindings and reverse inverse, session counts true and positive, host counters true, one lease per binding. |
| `BindingTables.WithSessionKeepsConsistent` | src/nat64/bindings.rs:227-247 | Adding a session preserves the same. |
| `BindingTables.WithBindingKeepsConsistent` | src/nat64/bindings.rs:257-278 | Binding a fresh port preserves the same. |
| `BindingTables.KeptKeepsConsistent` | src/nat64/bindings.rs:80-94 | Dropping prefixes preserves the same. |
| `BindingTables.LocalClaimKeepsConsistent` | src/service_io/ports.rs:58-97 | A claim by a local endpoint of the shared registry preserves the same. |
| `BindingTables.LocalDropKeepsConsistent` | src/service_io/ports.rs:30-47 | So does dropping its lease, early or late. |
| `Bindings.ClaimLocal` | src/service_io/ports.rs:58-97 | A local claim leaves the whole table valid. |
| `Bindings.ReleaseLocal` | src/service_io/ports.rs:30-47 | So does its release. |
| `BindingTables.AsManyLeases` | src/nat64/bindings.rs:257-278 | There are as many translation leases as bindings. |
| `Flows.ChargeNeverBinds` | src/nat64/bindings.rs:129-136 | The byte budget never refuses what the other caps allow. |
| `Flows.LiveSessionAdmitted` | src/nat64/bindings.rs:213-226 | Traffic of a live session is never refused. |
| `Flows.OpenedIsCapped` | src/nat64/bindings.rs:213-226 | Admission keeps 4096 bindings, 8192 sessions, 128 bindings and 256 sessions per host. |
| `Flows.AdmittedExactly` | src/nat64/bindings.rs:213-226 | Admission in plain numbers: when a new binding, session or host still fits. |
| `Flows.SweptExactly` | src/nat64/bindings.rs:157-201 | A sweep keeps exactly the sessions that have not ended, an established TCP session one transitory time longer, and the bindings they use. |
| `FlowRuns.SessionOutlivesTraffic` | src/nat64/bindings.rs:248-301 | Over every run inside its lifetime, under changing UDP timeouts, a UDP session stays open over the same port. |
| `FlowRuns.LiveSessionReceives` | src/nat64/bindings.rs:280-301 | A packet of a live session reaches its host and is never refused. |
| `Translator.Nat64.Outbound` | src/nat64/translate.rs:95-251 | In packet fields: which packets stop with which answer, leaving the table alone, and which go on; one for outside leaves as an open session that owns the new source port, and never fails once admitted; one for the pool address turns round through the inbound filter. |
| `Translator.OutboundChecks` | src/nat64/translate.rs:95-181 | The checks on the way out, in packet fields: prefixes of source and destination, first octet 1 to 223 and not 127, reachable or the pool, length and checksum right, more than one hop, and fitting the MTU or 1260 or fragmented. |
| `Translator.Nat64.Inbound` | src/nat64/translate.rs:252-345 | A packet that fails a check changes nothing; otherwise it goes to the owner of the port, from the synthesized source. |
| `Translator.InboundChecks` | src/nat64/translate.rs:252-304 | The checks on the way in likewise, with the ICMP answer of each. |
| `Translator.UsableExactly` | src/nat64/translate.rs:46-65 | Which prefixes are usable, in numbers. |
| `Translator.TurnedMeaning` | src/nat64/translate.rs:188-218 | A hairpinned packet comes from the synthesized pool address and the given port, to the host and port of the owner, otherwise unchanged and with a right checksum. |
| `Translator.Nat64.TurnRound` | src/nat64/translate.rs:188-218 | The hairpin path: the outgoing tuple meets the inbound filter. |
| `Translator.Nat64.SetPrefixes` | src/nat64/translate.rs:46-55 | All or nothing; keeps exactly the bindings of the remaining prefixes. |
| `Translator.Nat64.SetIpv4` | src/nat64/translate.rs:66-75 | A new pool address ends every binding, an invalid one changes nothing. |
| `Translator.Nat64.Poll` | src/nat64/translate.rs:347-348 | The timer sweeps; for UDP that is a step of every run. |
| `Translator.Nat64.EchoOut` | src/nat64/translate.rs:170-171 | An outgoing echo is bound below its prefix and is a step of every run. |
| `Translator.Nat64.EchoIn` | src/nat64/translate.rs:305-306 | Exactly an echo of an open session of the identifier goes in, to its host and identifier, and renews the session. |
| `FlowRuns.EchoBoundMoves` | src/nat64/bindings/icmp.rs:35-65 | Binding an echo identifier leaves UDP sessions as a run requires. |
| `FlowRuns.EchoInMoves` | src/nat64/bindings/icmp.rs:66-87 | So does letting an echo in. |
| `Translator.SynthesizeRoundTrip` | src/nat64/translate.rs:378-380 | An address below a /96 prefix is the synthesis of its own last 32 bits. |
| `Translator.Nat64.SetUdpTimeout` | src/nat64/bindings.rs:147-156 | Accepts 120 to 86400 seconds and changes no session. |
| `Translator.AnswerPasses` | src/nat64/translate.rs:252-302 | Exactly which answers to a translated packet get past the checks of the inbound path. |
| `Translator.AnswersComeBack` | src/nat64/translate.rs:95-345 | After a packet is translated out, an answer before the session ends is delivered to its sender from exactly the address and port it sent to, with the same data and right checksums, after any run of other packets, refusals, sweeps, timeout changes and prefix rotations that keep the prefix. |
| `RouteExports.Exports.Transmitted` | src/router/mod.rs:801-817 | Records every sent option; afterwards every promise that is live and was not taken back three times since is still in the table, with exactly its lifetime. |
| `RouteExports.Exports.SnapshotAil` | src/router/mod.rs:441-493 | Every promise still owed is in the advertisement, the other routes are the candidates that fit, in order; positive lifetimes are candidates not being withdrawn; the route budget is kept in every reachable state; when all fit, all are in. |
| `RouteExports.Exports.SnapshotStub` | src/router/routes.rs:90-135 | Every promise still owed is in the advertisement, withdrawn routes with lifetime zero, observed ones with their own. |
| `RouteExports.Exports.Reap` | src/router/budget.rs:9-13 | Drops exactly expired promises and their counters; breaks no promise. |
| `RouteExports.Exports.Withdraw` | src/router/routes.rs:36-45 | Starting or restarting a withdrawal breaks no promise. |
| `RouteExports.Exports.Cancel` | src/router/mod.rs:328-331 | Nor does cancelling one. |
| `RouteExports.Exports.Reconcile` | src/router/routes.rs:140-162 | Withdraws exactly what had a positive lifetime and has none now. |
| `RouteExports.BudgetAil` | src/router/budget.rs:14-54 | Wanted is each candidate that fits within 1184 octets after those before it and is not being withdrawn; live promises are all repeated, and only a new route that does not fit beside the others is left out. |
| `RouteExports.SentKeepsHonest` | src/router/mod.rs:801-817 | One sent option keeps the agreement between the table and the history of everything sent. |
| `RouteExports.CountersAreFree` | src/router/routes.rs:36-48 | No reset or cancellation of counters lets a promise leave early. |
| `RouteExports.ThreeEnd` | src/router/mod.rs:808-814 | Three zero-lifetime options in a row end a promise, two do not. |
| `RouteExports.PromiseInNumbers` | src/router/mod.rs:801-817 | In milliseconds: after a route is sent with a lifetime of L seconds at t, and then only other routes, it is a live promise exactly before t + 1000 L, and for ever if L is 0xffffffff. |
| `RouteExports.ReapedExactly` | src/router/budget.rs:9-13 | What the sweep keeps, in milliseconds. |
| `RouteExports.ThreeAdvertisementsEnd` | src/router/mod.rs:801-817 | Three advertisements with lifetime zero end a promise, fewer do not, whatever else they carry. |
| `Election.Link.Receive` | src/router/mod.rs:351-386 | An advertising router gives way exactly to a suitable prefix of another router, and to the ULA prefix of a SNAC router only if it is smaller; an idle one becomes suitable exactly when one is suitable. |
| `Election.Link.Snapshot` | src/router/mod.rs:402-425 | The own option of each state: half an hour, or the whole seconds left of it and at least 206, or none. |
| `Election.Link.Tick` | src/router/mod.rs:618-637 | Without a supplier, or after a silent discovery, the router takes over, and only then. |
| `Election.Link.Transmitted` | src/router/mod.rs:790-800 | A sent advertisement completes taking over, or giving way once it no longer carries the own prefix. |
| `Election.StepKeeps` | src/router/mod.rs:351-386 | No router advertises against a better option heard since it began, whatever is lost or reordered. |
| `Election.LeastStays` | src/router/mod.rs:353-365 | Once the router with the least prefix advertises, it does so for ever. |
| `Election.NoTwoAdvertise` | src/router/mod.rs:351-386 | Two routers that heard each other since they began never both advertise. |
| `Election.SmallerDisplaces` | src/router/mod.rs:353-365 | An advertising router that hears a suitable prefix gives way exactly if that prefix is smaller. |
| `Election.GivingWayIsOrdered` | src/router/mod.rs:353-365 | A router gives way only to a smaller prefix of another router, so never two to each other. |
| `Publisher.Queue.IsReadyNow` | src/mdns/publish.rs:265-267 | For a ready publication with unique names: three probes 250 ms apart since the last conflict, lost tie-break, availability or name change, and then an announcement, if and only if since the first of its counted probes no conflict found it waiting to announce changed records, no conflict or tie-break was kept from it by a walk that failed earlier, and no change of its unique names hid under one digest; a poll that found nothing to probe is the one other exception, and is in the history. |
| `Publisher.ReadyIsEarned` | src/mdns/publish.rs:18-36 | The same on values; and ready means announced, if and only if no poll found nothing to send since the records changed. |
| `Publisher.IgnoredConflict` | src/mdns/publish.rs:777-781 | Every publication that waits to announce changed records ignores a conflict, and with its next announcement is ready on probes older than the conflict. |
| `Publisher.ConflictIgnoredRun` | src/mdns/publish.rs:777-781 | A run of the publisher from nothing to that state: ready with probes at 0, 250 and 500 ms and a conflict at 900 ms. |
| `Publisher.KeptConflict` | src/mdns/publish.rs:782-785 | A conflict kept from any probing publication leaves it probing, with none of its earlier probes valid any more. |
| `Publisher.ConflictKeptRun` | src/mdns/publish.rs:782-785 | A run of the publisher to that end: publication 1 has a stale projection, a conflict at 300 ms never reaches publication 2, and that is ready at 750 ms with two of its three probes older than the conflict. |
| `Publisher.SharedAfterFailure` | src/mdns/publish.rs:334-340 | Every failed publication that shared records replace goes back to probing, finds nothing to probe and is ready with nothing announced. |
| `Publisher.SilentlyReadyRun` | src/mdns/publish.rs:487-494 | A run of the publisher from nothing to that state. |
| `Publisher.Queue.Replace` | src/mdns/publish.rs:278-397 | Succeeds exactly when digests match and limits allow; then the exact new state and history: equal digests change nothing and hide a change of unique names, a ready publication under the same names announces again, anything else starts over; the pending token is superseded. |
| `Publisher.Queue.Available` | src/mdns/publish.rs:398-428 | A change of availability resets every publication that is not paused and supersedes the token. |
| `Publisher.Queue.Poll` | src/mdns/publish.rs:439-512 | Exact outcomes: a due goodbye first, then the publication due longest, under a new token; one that probes but has no unique records becomes ready, and only because its projection changed under one digest or because it replaced a failed one. |
| `Publisher.Queue.Sent` | src/mdns/publish.rs:513-561 | Feedback for a superseded token changes nothing; for the current one it advances exactly the offered publication. |
| `Publisher.Queue.Receive` | src/mdns/publish.rs:767-850 | Walks in order of ids up to the first listening publication that fails and fails exactly then; those it came past react, all record the message with the state it found; the token is superseded exactly if one changed. |
| `Publisher.Queue.Pause` | src/mdns/publish.rs:562-571 | Pausing supersedes the token. |
| `Publisher.SentIsEarned` | src/mdns/publish.rs:526-557 | A successful offer moves the state only as far as probes and announcements were sent in time. |
| `Publisher.HeardIsEarned` | src/mdns/publish.rs:777-848 | After a conflict, heeded, ignored or kept from the publication, no earlier probe counts as sent since the last conflict, and the state is still one the history entitles to. |
| `Publisher.RestartIsEarned` | src/mdns/publish.rs:330-346 | A replacement is never ready at once. |
| `Publisher.RestartedExactly` | src/mdns/publish.rs:321-346 | The state a replacement starts in, for every previous state. |
| `Publisher.HeardExactly` | src/mdns/publish.rs:777-848 | What a conflict or a better rival does in every state. |
| `Publisher.RetriedExactly` | src/mdns/publish.rs:526-561 | A failed transmission is tried again after 100 ms and changes nothing else. |
| `Publisher.ResetExactly` | src/mdns/publish.rs:398-428 | What a change of availability does in every state. |
| `SrpRegistry.Registry.Apply` | src/srp/registry.rs:293-403 | Exact outcomes: repeated updates get their grant less the time since; another key's name is refused; errors change nothing; a new grant follows a save of exactly the new state; bounds hold. |
| `SrpRegistry.Registry.ExpireAll` | src/srp/registry.rs:230-255 | The sweep does to hosts and services exactly what the expiry of leases says, and keeps bounds and ownership. |
| `SrpRegistry.Registry.Foreign` | src/srp/registry.rs:304-308 | The check loop finds exactly whether another key owns a name of the update. |
| `SrpRegistry.CheckBounds` | src/srp/registry.rs:404-418 | True exactly within 128 parents, 1024 services, 128 receipts and 8 services per host. |
| `SrpRegistry.Remember` | src/srp/registry.rs:380-396 | The receipts stay within 128, the oldest makes room, and the new grant is the one repeated. |
| `SrpRegistry.StepKeepsSole` | src/srp/registry.rs:143-154 | A name live as host and as service has one key, in every run. |
| `SrpRegistry.StepOwner` | src/srp/registry.rs:304-379 | A live owner keeps its name or gives it up itself. |
| `SrpRegistry.OwnershipPasses` | src/srp/registry.rs:143-403 | In every run, between two owners of a name its key lease ended, or the first owner released that very name, by an update for the host it is or belongs to. |
| `SrpRegistry.GrantHolds` | src/srp/registry.rs:293-403 | A granted key lease holds its names against every other key for its whole time, in every run. |
| `SrpRegistry.AcceptHolds` | src/srp/registry.rs:336-378 | An accepted update holds every name in it for the granted time. |
| `SrpRegistry.AcceptShows` | src/srp/registry.rs:336-378 | After an accepted update with a lease its host and each service it names last are live until now + 1000 * lease. |
| `SrpRegistry.RecordsHold` | src/srp/registry.rs:230-378 | Over every run, the records of a live service stay live until the lease ends unless its own key changes them. |
| `SrpRegistry.AddedExactly` | src/srp/registry.rs:358-378 | The lease of each service after an update: that of its last item, or none if that is deleted or the lease is zero. |
| `SrpRegistry.ExpiredExactly` | src/srp/registry.rs:230-255 | What expiry ends and what it keeps. |
| `SrpRegistry.GrantedExactly` | src/srp/registry.rs:125-132 | The grant: the lesser of what is asked and what policy allows. |
| `SrpRegistry.ReleasedExactly` | src/srp/registry.rs:336-357 | An update with key lease zero removes its host and exactly the services under it and its key. |
| `SrpRegistry.ReplayInNumbers` | src/srp/registry.rs:293-303 | A repeated update gets its grant less the whole seconds since, never below zero. |
| `SrpRegistry.ExpireKeepsBounded` | src/srp/registry.rs:230-255 | Expiry keeps every capacity bound. |
| `Resolver.Forwarder.Submit` | src/dns/resolver.rs:613-653 | Exact outcome of every query: answered, joined to an equal one, made a job or sent to the first server with ten seconds to wait, or refused without effect; an accepted client waits once or is answered once and never more than 256 wait. |
| `Resolver.Forwarder.MakeQuery` | src/dns/resolver.rs:654-690 | Gives a new exchange number and a source port that no pending query uses; it cannot run out. |
| `Resolver.FreePort` | src/dns/resolver.rs:669-676 | With at most 128 queries the port scan always ends at an unused port. |
| `Resolver.Forwarder.Receive` | src/dns/resolver.rs:692-778 | A response that does not count changes nothing, a truncated one is asked again over TCP until the deadline, any other ends the query: its waiters are answered, or wait for exactly the lookup that the response calls for. |
| `Resolver.Forwarder.Continue` | src/dns/resolver/discovery.rs:179-247 | The Additional-A continuation: a job at the proxy, a new query with ten seconds to wait, or answers, in exactly which case; each lookup comes with one more alias, so there are at most seventeen. |
| `Resolver.Forwarder.JobDone` | src/dns/resolver/discovery.rs:138-165 | A finished proxy job does for its waiters exactly what a response does. |
| `Resolver.Forwarder.SubmitDiscovery` | src/dns/resolver/discovery.rs:53-100 | A query for the proxy joins an equal one, starts a job, or fails with the error of the first limit it meets and changes nothing. |
| `Resolver.Forwarder.FailUpstream` | src/dns/resolver/privacy.rs:100-131 | A failed query is answered exactly when it is late, internal or has nowhere to go, and otherwise asked again under a new number, of its own server if that still serves. |
| `Resolver.Forwarder.Tick` | src/dns/resolver.rs:863-900 | Replies exactly to the waiters of queries past their deadline or without a server left to ask; every other query goes on with its key, question, waiters, deadline and aliases: an overdue one under a new number at the next server with 2, 4 and then 8 seconds to wait, any other as it was. No client has waited for upstream servers, over all stretches, longer than ten seconds for each of eighteen queries. |
| `Resolver.Forwarder.StartProbe` | src/dns/resolver/browse.rs:10-38 | A query of the router itself has no waiters, takes none and ends when told. |
| `Resolver.Forwarder.CancelConnection` | src/dns/resolver.rs:356-367 | Exactly the waiters of the closed connection go. |
| `Aliases.AdditionalAlias` | src/dns/resolver.rs:1090-1122 | There is a next lookup exactly if the chain of unambiguous aliases leaves the response at a name without address, all its names are new and there are at most seventeen in all; then it is for that name. |
| `Aliases.CanonicalEnds` | src/dns/resolver.rs:950-977 | A canonical name is the end of an unambiguous alias chain, and there is one exactly if the chain ends within sixteen steps. |
| `Aliases.AdditionalQuestion` | src/dns/resolver.rs:1051-1060 | Exactly an empty AAAA answer whose chain ends within sixteen aliases calls for an A lookup, of the name at the end. |
| `Aliases.EndedIsDistinct` | src/dns/resolver.rs:950-977 | A chain that ends passes no name twice, so the loop check refuses no chain that ends. |
| `Aliases.TargetsExactly` | src/dns/resolver.rs:953-963 | The targets of a name are those of the alias records it owns. |
| `ResolverCache.Cache.Store` | src/dns/resolver.rs:779-862 | Stores exactly the cacheable responses that can fit, under the exact entry, within 1024 sets and 4 MiB; only the least recently used entries go, and no more than needed. |
| `ResolverCache.Cache.MakeRoom` | src/dns/resolver.rs:840-850 | Eviction ends with enough room, drops only entries used no later than those kept, and the last one dropped would not have fitted. |
| `ResolverCache.Cache.Lookup` | src/dns/resolver.rs:607-612 | Every TTL served is the stored one less whole elapsed seconds and at least 1. |
| `ResolverCache.StillThere` | src/dns/resolver.rs:1015-1031 | A live entry has no TTL that ran out. |
| `ResolverCache.LifeExactly` | src/dns/resolver.rs:779-818 | Which responses are kept, and for how long: the least TTL, and of a negative answer the least SOA minimum. |
| `ResolverCache.StoredExactly` | src/dns/resolver.rs:827-838 | The SOA record of a negative answer is stored with the life of the answer, every other record with its own TTL. |
| `Selection.Selector.Select` | src/nat64/selection.rs:237-279 | The announcements are exactly those of the decision below, and after them a withdrawal of each promise that they do not renew; at most eight with different prefixes, acceptable as feedback at the same time; every positive lifetime ends no later than each piece of its evidence and survives PREF64 encoding and decoding. |
| `Selection.Selector.Advertised` | src/nat64/selection.rs:196-229 | Accepts exactly lists within the limits, and keeps at most eight promises. |
| `Selection.Selector.Restore` | src/nat64/selection.rs:159-179 | Takes a promise exactly if it is usable, of the right shape when local, new, and there is a slot. |
| `Selection.Selector.RotateLocal` | src/nat64/selection.rs:89-100 | A new site takes a slot or is refused; never more than eight promises, and the old local prefix stays promised. |
| `Selection.FeedbackAccepted` | src/nat64/selection.rs:196-229 | A decision reported later is still accepted. |
| `Selection.Selector.SelectActive` | src/nat64/selection.rs:280-420 | Exactly the candidates, in order, with eight seconds of all evidence and a promise or a slot left, each for the greatest multiple of eight seconds that its evidence allows; the local prefix only if there are none; announcing is suppressed exactly if only slots were missing and peers are left. |
| `Selection.AnnouncedSurvives` | src/wire.rs:359-390 | An announced prefix and lifetime decode from their PREF64 option unchanged. |
| `Selection.Selector.SelectLocal` | src/nat64/selection.rs:382-415 | The local translator is announced exactly when it is ready, has a slot and no peer serves instead, for as long as its evidence allows, half an hour at most. |
| `Selection.PromiseRenewed` | src/nat64/selection.rs:328-353 | A promised prefix is renewed as long as its evidence lasts, whatever other candidates there are. |
| `Selection.ChosenExactly` | src/nat64/selection.rs:328-356 | A candidate is chosen exactly if it has eight seconds of evidence and a promise or a slot after those before it; the limit of eight never refuses one. |
| `Selection.LocalOfSite` | src/nat64/selection.rs:69-77 | A site is a canonical /48 below fc00::/7, and its local /96 lies in it. |
| `Pref64.RoundTrip` | src/wire.rs:359-390 | A PREF64 option decodes to the same prefix, and to the same lifetime when that is a multiple of eight within the field. |
| `Pref64.OptionLayout` | src/wire.rs:359-376 | The octets of the option as section 4 of RFC 8781 lays them out. |
| `Pref64.ScaledExactly` | src/wire.rs:370-371 | The lifetime is rounded up to eight seconds, and 65528 is the most. |

## Left out

- Translation of TCP and of ICMP errors, and the TCP quotes: of TCP only the session field that expiry handles is modelled; runs allow any traffic that leaves UDP alone.
- Flows.ChargeNeverBinds: holds for the tables without stored TCP quotes and timeouts, which add to the source's charge.
- Bindings.Table.Admit: the charge likewise leaves out stored TCP quotes and timeouts.
- Translator.AnswersComeBack: speaks about parsed IP headers and whole UDP segments.
- Translator.Nat64.Outbound: extension headers, IP header octets, fragmentation of the result and the contents of ICMP reports are inputs, outcomes or left out (fragmentation has its own round trip).
- Translator.Nat64.Inbound: the same; a source route is an input.
- Translator.Nat64.Poll: the TCP probes and timeout reports of the timer are left out.
- Translator.Nat64.EchoOut: only the binding, not the echo packet itself.
- Translator.Nat64.EchoIn: only the owner, not the echo packet itself.
- Resolver.Forwarder.StartProbe: the octet limit that also skips a probe is left out.
- Failing random sources and poisoned locks are not modelled; random draws are arbitrary inputs within the sampled range.
- TcpFrames.Deframer.InputWithLimit: allocated capacity is taken to be the length asked for.
- Map iteration order is left open where the source uses ordered maps (the route budget, the sweeps, eviction among equally old entries); the results hold for every order.
- RouteExports.Exports.Transmitted: the source records routes only after the feedback to the NAT64 selection succeeded; a failure there, which a decision of the selection reported before the next one cannot cause (Selection.FeedbackAccepted), is left out.
- RouteExports.Exports.SnapshotStub: what is observed on the AIL side is an input; the reservation for service options on the stub link is not modelled.
- RouteExports.Exports.SnapshotAil: the budget result is for advertisements whose transmission result is reported before the next one of that link is built.
- Restoring promises after a restart, link flaps, attachment moves and prefix delegation in the router.
- Election.LeastStays: for SNAC routers with different ULA prefixes on one link; supplier freshness and discovery timing are arbitrary inputs.
- Publisher.Queue.Receive: which records conflict or win a tie-break, and at which publication the walk fails, are inputs; TSR stamps and everything they bypass are not modelled.
- Publisher.Queue.Poll: a digest of records is taken to differ from the digest of none.
- Publisher.Queue.Replace: limits on records and octets are one input.
- Publisher.Queue.IsReadyNow: the equivalence is for publications that did not become ready at a poll with nothing to probe; for those only the history tells what was sent.
- SrpRegistry.Registry.Apply: signatures, record contents, the octet limit and the journal format are inputs or opaque; a failed save leaves the store as it was.
- SrpRegistry.CheckBounds: the octet limit is an input of the update.
- Resolver.Forwarder.Submit: local answers, the per-client limit and the octet limit are inputs.
- Resolver.Forwarder.Receive: whether a response matches its query is an input; so is TLS routing; parsing and encoding always succeed.
- Resolver.Forwarder.Tick: time spent in the discovery proxy is not bounded by the resolver and not counted.
- Selection.Selector.Select: observations arrive as a list of live candidates; routability of prefixes, the mode, its reason and the route list of a decision are not modelled.
- Selection.Selector.SelectActive: the same.
- Aliases.AdditionalQuestion: the class of a question is not modelled.
- Resolver.Forwarder.MakeQuery: a query is sent over UDP; TLS routes and queries above 4096 octets, which start over TCP, are left out.
- Native I/O, cryptography, TLS, DHCP, the socket library and configuration parsing.
