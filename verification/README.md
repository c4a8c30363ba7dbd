# Verified model of the NAT, conntrack and load-balancer datapath

A Dafny model of the stateful parts of the eBPF datapath under `bpf/`: source NAT with its port
allocator, connection tracking, NodePort and direct server return (DSR), service load balancing,
the host firewall, the socket-level load balancer, NAT46/64, earliest-departure-time pacing and the
IPv6 extension header walker. `dafny verify dfyconfig.toml` checks everything.

## How the model is built

- Each BPF map is a field of type `map` of a class. Operations that change a map or a packet step by
  step are methods, and each is proved equal to a function of the old state. The theorems are lemmas
  about those functions.
- Clocks, random numbers, identities, policy verdicts and the failure of every map insert, delete or
  packet resize are inputs. Nothing is assumed about them unless a lemma says so.
- A packet is a sequence of 16-bit words in the order a little-endian CPU loads them, with its length
  in bytes (`Packet.dfy`); packets with IPv6 extension headers are bytes (`Ipv6Ext.dfy`). Ports and
  addresses in tuples are in network byte order, as loaded; NAT port ranges are in host byte order.
- Integers are unbounded; 16-, 32- and 64-bit wrap-around is written out wherever the C code has it.
- A checksum is valid when the one's-complement sum of the covered words is 0xffff (section 1 of
  RFC 1071). `csum_diff`, `l3_csum_replace` and `l4_csum_replace` follow equation 3 of section 3 of
  RFC 1624.
- The modelled build has IPv4, NodePort and masquerading on, SCTP off, and DSR with the service
  address in an IP option.

| file | content |
|---|---|
| `Net`, `Checksum`, `Packet` | integers, tuples, checksum arithmetic, the packet buffer and header rewriting |
| `Translation` | why replacing an address and a port keeps both checksums valid |
| `PortRange`, `Snat`, `SnatConcurrent`, `IcmpError` | the SNAT engine of `bpf/lib/nat.h` |
| `Conntrack`, `CtReports`, `HostFirewall` | connection tracking and the host firewall |
| `Lb`, `LbXlate`, `NodePort`, `NodePortPath` | service load balancing and NodePort in SNAT mode, end to end |
| `Dsr`, `DsrOption`, `DsrPath`, `Ipv6Ext` | direct server return, end to end |
| `Nat46x64`, `SockLb`, `Edt` | NAT46/64, socket load balancing, pacing |

## Where a promise holds only under a condition

Each of these is proved with its exact condition, and with inputs or reachable states on which it fails.

- SNAT halves stay inverses exactly when no deletion is lost: a failed delete of a stale reverse entry,
  or a failed rollback (`Snat.ForwardKeepsPairingIff`, `Snat.LostDeleteLeavesOrphan`).
- A lost reverse entry comes back exactly when no other flow took its key (`Snat.RepairReverseIff`). A
  second flow with the same source port takes it (`Snat.TakenKeyIsNotRepaired`).
- With replies that repair missing forward entries, interleaved CPUs keep every flow backed exactly while
  no rollback hits a flow repaired under its own key and no repair comes after its reverse entry has gone
  (`SnatConcurrent.InterleavedRepairIsSafeIff`). Two steps from an empty table there is a state that five
  more steps break (`SnatConcurrent.ReservationIsReachable`, `SnatConcurrent.RepairDuringReserveBreaks`).
- Report throttling is bounded while the clock stays an interval away from the 32-bit wrap. Nearer to
  it every call is reported (`CtReports.EveryCallReportedNearWrap`).
- Departures are spaced exactly when the 64-bit sum does not wrap (`Edt.SpacedIffNoWrap`,
  `Edt.WrapSendsEarly`).
- The packet that a reply answers was let through by the host firewall unless it could not be readdressed
  to its proxy (`HostFirewall.RepliesAreSolicited`, `HostFirewall.RepliesAreSolicitedByPassed`). Then
  replies to a dropped packet pass (`HostFirewall.DroppedPacketStillAdmitsReplies`).
- The packet that an ICMP error is about was let through unless that readdressing failed, or its related
  entry was written and its own insert then failed (`HostFirewall.ErrorsAreSolicited`,
  `HostFirewall.ErrorsAreSolicitedByPassed`). In both cases errors about a dropped packet pass
  (`HostFirewall.DroppedPacketStillAdmitsErrors`).
- A NodePort request establishes its connection exactly when a NAT mapping that it reuses holds its
  own reverse key and a port that replies look up (`NodePortPath.RequestEstablishes`). In general the reply
  reaches the client exactly when its NAT key is looked up and leads there, a conntrack step that the entry
  asks for works, and it is no bare SYN on a closing entry (`NodePortPath.ReplyReachesClientIff`). After the
  key was evicted and taken by a second client, the reply goes to that client
  (`NodePortPath.EvictedKeyIsMisdelivered`).
- A NodePort reply is not translated back exactly when it is a bare SYN and the entry is closing
  (`NodePortPath.ReplyReturns`, and after a FIN `NodePortPath.SynAfterFinIsLost`). The same holds for DSR
  (`DsrPath.TrackedReplyReturns`, `DsrPath.SynAfterFinIsUntranslated`).
- DSR info is taken exactly when the flow is TCP or not yet known with another service address
  (`Dsr.InfoIsLearnedIff`). A UDP flow keeps the first (`Dsr.SecondUdpInfoIsIgnored`).
- The DSR extension header makes an IPv6 packet unparsable exactly when it already has three extension
  headers (`Ipv6Ext.OptionHarmlessIffTwoHeaders`, `Ipv6Ext.ThirdHeaderBreaks`).
- NAT64 breaks the checksum of exactly those ICMP messages that are zero except for the checksum, such
  as an empty echo reply with id and sequence 0 (`Nat46x64.To4KeepsChecksum`,
  `Nat46x64.BlankEchoReplyBreaks`).
- NAT46 keeps a packet acceptable exactly when it is not UDP without checksum, which IPv6 receivers discard
  (`Nat46x64.To6AcceptedIff`, `Nat46x64.To6Unsummed`).

The code and its comment disagree in one place: on a little-endian CPU `ct_entry_seen_both_syns`
(bpf/lib/conntrack.h:141-147) is never true, so every RST closes both directions. The model follows the code
(`Conntrack.RstCloses`).

## Model

| member | source | states |
|---|---|---|
| `Checksum.VerifiesIff` | bpf/include/bpf/csum.h:9-14 | a range verifies if and only if its plain sum is a positive multiple of 2^16 - 1 |
| `Checksum.CsumAdd` | bpf/include/bpf/csum.h:21-25 | addition with end-around carry keeps the residue and yields zero only from zeros |
| `Checksum.CsumFold` | bpf/include/bpf/csum.h:9-14 | the folded value complements the sum modulo 2^16 - 1 |
| `Checksum.CsumFoldIsTwoSteps` | bpf/include/bpf/csum.h:9-14 | two folding steps always suffice, and give the closed form used everywhere else |
| `Checksum.CsumDiff4` | bpf/include/bpf/csum.h:32-51 | the difference of two 32-bit values, modulo 2^16 - 1 |
| `Checksum.CsumPartial` | bpf/include/bpf/csum.h:32-51 | the seed plus every word |
| `Checksum.CsumDiff` | bpf/include/bpf/csum.h:32-51 | the seed plus one buffer minus the other |
| `Checksum.Replace` | bpf/include/bpf/ctx/xdp.h:153-197 | the field moves against the difference, whether given as two values or as a difference, and never becomes 0xffff |
| `Checksum.ReplaceL4` | bpf/include/bpf/ctx/xdp.h:201-239 | an absent UDP checksum stays absent, a present one never becomes zero, every other one moves against the difference |
| `PortRange.Clamp` | bpf/lib/nat.h:99-108 | the multiply-shift fits in 32 bits and stays in the range |
| `PortRange.TryKeepPort` | bpf/lib/nat.h:113-118 | a port in the range is kept, any other is replaced by one in the range |
| `PortRange.PreimageCard` | bpf/lib/nat.h:99-108 | every port of the range is hit by the whole part of 2^16 / n values or one more |
| `PortRange.ClampIsFair` | bpf/lib/nat.h:99-108 | every port of the range is reached, and any two have preimage counts differing by at most one |
| `PortRange.AllocatedPortIsLookedUp` | bpf/lib/nodeport.h:2396-2416 | a port from either configured range, drawn at first or after the swap, is one that the reply path looks up |
| `Snat.SnatMap.Create` | bpf/lib/nat.h:264-346 | an insert with BPF_NOEXIST refuses an existing key |
| `Snat.SnatMap.Reserve` | bpf/lib/nat.h:291-311 | the retry loop inserts the reverse entry under the first free candidate key, or nothing after 32 tries |
| `Snat.SnatMap.NewMapping` | bpf/lib/nat.h:264-346 | reserve, publish and roll back as `Allocate` says |
| `Snat.SnatMap.HandleMapping` | bpf/lib/nat.h:348-441 | hit, repair, stale replacement and new mapping as `Forward` says |
| `Snat.SnatMap.RevHandleMapping` | bpf/lib/nat.h:443-516 | reply lookup and repair as `Reply` says |
| `Snat.BackedIsExclusive` | bpf/lib/nat.h:264-346 | if every forward entry has its reverse entry, two flows to one remote endpoint never share an external address and port |
| `Snat.AllocatePairs` | bpf/lib/nat.h:264-346 | a new mapping adds exactly one matching pair, or nothing |
| `Snat.DropStalePairs` | bpf/lib/nat.h:423-437 | replacing a stale mapping removes exactly one matching pair |
| `Snat.ForwardKeepsPairingIff` | bpf/lib/nat.h:348-441 | one packet keeps both halves exact inverses if and only if it loses no deletion |
| `Snat.LostDeleteLeavesOrphan` | bpf/lib/nat.h:317-346 | a lost deletion always leaves a reverse entry without its forward entry |
| `Snat.StepKeepsPairing` | bpf/lib/nat.h:348-516 | so does a packet in either direction |
| `Snat.RunKeepsPairing` | bpf/lib/nat.h:264-516 | the halves stay inverses, with equal needs_ct and no orphan, over every run without eviction |
| `Snat.SequentialPairing` | bpf/lib/nat.h:264-516 | from an empty map: exact inverses and no collision after every run |
| `Snat.ForwardFrame` | bpf/lib/nat.h:348-441 | a packet touches no key of another flow and adds only keys of its own |
| `Snat.ForwardMakesFlow` | bpf/lib/nat.h:348-441 | a translated packet gets the target's address; its flow is paired afterwards if and only if a mapping it reused was not claimed by another flow; a newly drawn port lies in the target's range |
| `Snat.ForwardKeepsBacked` | bpf/lib/nat.h:348-441 | without eviction no forward entry loses its reverse entry, even when deletions are lost |
| `Snat.ReplyKeepsBacked` | bpf/lib/nat.h:443-516 | a reply changes nothing but a missing forward entry, which it restores |
| `Snat.ForwardKeepsFlow` | bpf/lib/nat.h:348-441 | a packet of any flow, in any table, keeps both entries of a paired flow unless it replaces a stale mapping of that flow or one that shares its reverse key |
| `Snat.OthersDoNotDisplace` | bpf/lib/nat.h:348-441 | where every flow is backed, no packet of another flow does that |
| `Snat.RepairReverseIff` | bpf/lib/nat.h:392-421 | a lost reverse entry is restored by the flow's next packet, after any packets of other flows and any replies, if and only if no flow took its key; the map is the old one up to the time stamp |
| `Snat.TakenKeyIsNotRepaired` | bpf/lib/nat.h:392-421 | three packets in which another client with the same source port takes the evicted key: the first flow's packet then repairs nothing |
| `Snat.RepairForward` | bpf/lib/nat.h:458-488 | a lost forward entry is always restored by the flow's next reply |
| `SnatConcurrent.NextKeepsInv` | bpf/lib/nat.h:299-335 | each atomic step of any CPU keeps: a reserved key is in the table, points at its flow and is held by one CPU |
| `SnatConcurrent.NextBackedIff` | bpf/lib/nat.h:299-488 | one step keeps every published flow backed if and only if it is neither a rollback under a flow published with that key nor a repair whose reverse entry has changed |
| `SnatConcurrent.AlwaysBackedIff` | bpf/lib/nat.h:299-488 | so does every interleaving, in all of its states |
| `SnatConcurrent.InterleavedRepairIsSafeIff` | bpf/lib/nat.h:264-488 | allocation and repair on any number of CPUs from an empty table: backed in every state if and only if no such step occurs, and then no two flows to one endpoint share an address and port |
| `SnatConcurrent.AllocationKeepsInv` | bpf/lib/nat.h:299-335 | without repair no published flow uses a key that a CPU holds, so no step breaks the backing |
| `SnatConcurrent.InterleavedAllocationIsSafe` | bpf/lib/nat.h:251-346 | after every interleaving of allocations on any number of CPUs, with failing rollbacks, each published flow has its reverse entry, and no two flows to one endpoint share an address and port |
| `SnatConcurrent.RollbackSparesPublished` | bpf/lib/nat.h:329-335 | in every state that allocations reach a rollback leaves every published flow and its reverse entry alone |
| `SnatConcurrent.SoloRunIsAllocate` | bpf/lib/nat.h:264-346 | the sequential allocator is one of these interleavings, whatever fails |
| `SnatConcurrent.RepairDuringReserveBreaks` | bpf/lib/nat.h:458-488 | unless a rollback failed, a reply finds its forward half missing only while a CPU holds the reverse key; the repair and that CPU's rollback then leave the flow without reverse entry |
| `SnatConcurrent.ReservationIsReachable` | bpf/lib/nat.h:299-311 | such a state is two steps away from an empty table |
| `Packet.Ctx.StoreWord` | bpf/include/bpf/ctx/xdp.h:72-107 | a store inside the packet changes one word, one outside changes nothing |
| `Packet.Ctx.StoreAddr` | bpf/include/bpf/ctx/xdp.h:72-107 | the same for 32 bits |
| `Packet.Ctx.CsumReplaceL4` | bpf/include/bpf/ctx/xdp.h:201-239 | the L4 checksum update in place |
| `Packet.Ctx.ModifyL4Port` | bpf/lib/l4.h:61-72 | the port is stored before its checksum is fixed |
| `Packet.Ctx.RewriteL3Header` | bpf/lib/nat.h:532-538 | address and header checksum, with each failure |
| `Packet.Ctx.RewriteL4Header` | bpf/lib/nat.h:540-590 | port, address and embedded difference in the L4 checksum, with each failure |
| `Packet.Ctx.RewriteHeaders` | bpf/lib/nat.h:518-590 | the whole rewriting as `Rewrite` says |
| `Translation.TranslatedKeepsChecksums` | bpf/lib/nat.h:518-590 | a translation keeps both checksums acceptable to the receiver and changes nothing but address, port and checksums |
| `Translation.RewriteTranslates` | bpf/lib/nat.h:518-590 | header rewriting of TCP and UDP is a translation, for all old and new addresses and ports and for absent UDP checksums |
| `Translation.RewriteL3KeepsHeader` | bpf/lib/nat.h:532-538 | the L3 part alone keeps the IPv4 header valid, with or without options |
| `IcmpError.HandleIcmpError` | bpf/lib/nat.h:843-951 | lookup and rewriting of the embedded packet, in both directions |
| `IcmpError.RewriteLoaded` | bpf/lib/nat.h:1163-1201 | truncation, absent checksum, difference and rewriting |
| `IcmpError.Translate` | bpf/lib/nat.h:954-987 | the embedded packet first, then the outer header with the difference |
| `IcmpError.HandledShape` | bpf/lib/nat.h:1092-1201 | what an accepted error did to the embedded packet: the flow's own translation |
| `IcmpError.InnerMoves` | bpf/lib/nat.h:592-618 | the computed difference is exactly how far the embedded packet moved the outer sum, for a full header, a truncated TCP header and an absent UDP checksum |
| `IcmpError.OuterCancels` | bpf/lib/nat.h:540-590 | the outer rewriting takes that difference back out |
| `IcmpError.ErrorKeepsIcmpChecksum` | bpf/lib/nat.h:843-951 | an ICMP error that passes the NAT keeps its ICMP checksum valid, in both directions |
| `IcmpError.ErrorKeepsIpHeader` | bpf/lib/nat.h:518-590 | and its IPv4 header checksum |
| `IcmpError.ErrorRestoresFlow` | bpf/lib/nat.h:1092-1201 | the packet embedded in an error about a translated flow comes back as the flow sent it |
| `IcmpError.ErrorKeepsEmbedded` | bpf/lib/nat.h:843-951 | the embedded packet keeps its own IPv4 header checksum valid, and its L4 checksum where it is embedded that far |
| `Conntrack.UpdateTimeout` | bpf/lib/conntrack.h:168-232 | the lifetime is set, closing bits and translation are left alone |
| `Conntrack.Touch` | bpf/lib/conntrack.h:354-446 | no lookup changes what an entry says about its translation |
| `Conntrack.CtEntry.SetTimeout` | bpf/lib/conntrack.h:168-232 | in place: lifetime, accumulated flags, report time and the decision to report |
| `Conntrack.CtEntry.Update` | bpf/lib/conntrack.h:240-263 | in place: the lifetime by protocol, direction and whether only SYNs were seen |
| `Conntrack.CtEntry.CloseSide` | bpf/lib/conntrack.h:398-433 | in place: which closing bits a FIN or RST sets, with the mask that the source uses |
| `Conntrack.CtMap.LookupKey` | bpf/lib/conntrack.h:354-446 | the TCP state machine on an entry in place, and whether the lookup found a connection |
| `Conntrack.CtMap.LookupBoth` | bpf/lib/conntrack.h:927-988 | reverse direction first, then forward, with the tuple left as the source leaves it |
| `Conntrack.CtMap.CreateEntry` | bpf/lib/conntrack.h:1140-1202 | the related twin is written first and stays when the main insert fails |
| `Conntrack.AnswerFindsKey` | bpf/lib/conntrack.h:791-835 | an answering packet, looked up in the other direction, builds the reverse of the request's tuple |
| `Conntrack.StoredFlowIsRecognised` | bpf/lib/conntrack.h:1024-1202 | a new flow that is stored: its answer is CT_REPLY, its next packet CT_ESTABLISHED, an ICMP error from the peer CT_RELATED |
| `Conntrack.OnlyBareSynReopens` | bpf/lib/conntrack.h:354-446 | once both closing bits are set exactly a bare SYN clears them, and that lookup reports CT_NEW |
| `Conntrack.RstCloses` | bpf/lib/conntrack.h:141-147 | no entry ever counts as having seen both SYNs, so after any RST that hits it the entry is closed and has close_timeout left |
| `Conntrack.ClosedLifetime` | bpf/lib/conntrack.h:354-446 | over any lookups, a closed entry's lifetime is close_timeout after the last FIN or RST, modulo 2^32 |
| `CtReports.FlagsAccumulate` | bpf/lib/conntrack.h:168-232 | the stored flags are the union of all masked flags ever passed on that side |
| `CtReports.CallStep` | bpf/lib/conntrack.h:219-231 | a report needs a new flag or more than an interval since the last one |
| `CtReports.ReportsPaidFor` | bpf/lib/conntrack.h:168-232 | every report after the first is paid for by a new flag or by an interval |
| `CtReports.ReportBound` | bpf/lib/conntrack.h:168-232 | over any calls within time T at most 9 + T / (interval + 1) reports a side |
| `CtReports.DueByTimeIff` | bpf/lib/conntrack.h:219-220 | time makes a report due exactly when more than an interval passed or the 32-bit sum wrapped |
| `CtReports.EveryCallReportedNearWrap` | bpf/lib/conntrack.h:219-231 | within an interval of the wrap every call is reported, whatever their number |
| `HostFirewall.Firewall.LookupPacket` | bpf/lib/host_firewall.h:366-372 | the bidirectional lookup of both policy functions |
| `HostFirewall.Firewall.PolicyEgress` | bpf/lib/host_firewall.h:350-491 | who is concerned, who is exempt, who bypasses the policy, what is stored, and what is handed to a proxy |
| `HostFirewall.Firewall.PolicyIngress` | bpf/lib/host_firewall.h:493-633 | the same for packets to the host |
| `HostFirewall.FilterAdds` | bpf/lib/host_firewall.h:424-441 | a packet adds at most its own key, if it is accepted and both inserts work, and that key's related twin, if that insert works |
| `HostFirewall.AcceptedPassesIff` | bpf/lib/host_firewall.h:424-460 | an accepted new packet is let through, or redirected to its proxy, if and only if neither insert nor the readdressing to the proxy fails |
| `HostFirewall.EveryEntryJustified` | bpf/lib/host_firewall.h:350-608 | in every run with changing policy, failures and evictions, every entry goes back to an accepted or exempt packet |
| `HostFirewall.BypassNeedsKey` | bpf/lib/host_firewall.h:395-397 | the policy is bypassed only with an entry under the packet's own first key |
| `HostFirewall.RepliesAreSolicited` | bpf/lib/host_firewall.h:350-608 | a packet passed as CT_REPLY has an earlier packet of the opposite direction with the reversed tuple that was accepted or exempt, and was let through if and only if it could be readdressed to its proxy, if it had one |
| `HostFirewall.RepliesAreSolicitedByPassed` | bpf/lib/host_firewall.h:350-608 | in every run without failed readdressing that packet was let through |
| `HostFirewall.ErrorsAreSolicited` | bpf/lib/host_firewall.h:350-608 | a packet passed as CT_RELATED is an ICMP error with an earlier accepted or exempt packet between the same addresses in the opposite direction, which was let through if and only if its own insert and its readdressing worked |
| `HostFirewall.ErrorsAreSolicitedByPassed` | bpf/lib/host_firewall.h:350-608 | in every run in which no readdressing fails and no packet fails on its own insert after its related insert worked, that packet was let through |
| `HostFirewall.MirrorAnswers` | bpf/lib/conntrack.h:849-922 | for TCP and UDP the reversed tuple means swapped addresses and ports |
| `HostFirewall.DroppedPacketStillAdmitsErrors` | bpf/lib/conntrack.h:1164-1202 | a packet whose main insert or readdressing failed was dropped, yet errors about it pass |
| `HostFirewall.DroppedPacketStillAdmitsReplies` | bpf/lib/proxy.h:367-380 | a packet whose readdressing failed was dropped, yet replies to it pass |
| `Lb.RandomSlot` | bpf/lib/lb.h:1942-1953 | a random slot lies in 1..count and fits 16 bits |
| `Lb.Balancer.RecallBackend` | bpf/lib/lb.h:2097-2137 | session affinity lookup by address or network namespace, with expiry and removal |
| `Lb.Balancer.LocalBackend` | bpf/lib/lb.h:2204-2352 | the whole selection; the tuple comes back with its own flags on every exit |
| `Lb.Balancer.StoreNew` | bpf/lib/lb.h:2258-2293 | a new connection is given the remembered or a selected backend and stored, or dropped |
| `Lb.Balancer.KeepOrReplace` | bpf/lib/lb.h:2294-2330 | a tracked connection keeps its backend or gets another one, which is written back |
| `Lb.TrackedKeepsBackend` | bpf/lib/lb.h:2294-2330 | a packet that is no SYN goes to the tracked backend, draining or not, while its id exists; otherwise to the replacement, which becomes the tracked one |
| `Lb.LocalFrame` | bpf/lib/lb.h:2204-2352 | a packet touches no connection entry but its own service entry |
| `Lb.RunKeepsSticky` | bpf/lib/lb.h:2204-2352 | over any run and any backend changes the entry holds the sticky choice computed from the backend tables alone |
| `Lb.StickyBackend` | bpf/lib/lb.h:2204-2352 | while the id stays in the table every packet of the run gets that one backend |
| `Lb.ChosenIsTracked` | bpf/lib/conntrack.h:1368-1380 | whatever is chosen is what is tracked from then on |
| `Lb.KeptIff` | bpf/lib/lb.h:2294-2330 | SYNs too: unless the entry is abandoned, the backend is kept if and only if it exists and is active or the packet is no SYN |
| `Lb.VisitKeepsBackend` | bpf/lib/lb.h:2204-2352 | a client that comes back in time is sent to the backend it last used, by a new or an old connection |
| `Lb.OthersKeepLoyal` | bpf/lib/lb.h:2204-2352 | packets of other clients and to other services do not change what is remembered of it |
| `Lb.StickyClient` | bpf/lib/lb.h:2204-2352 | over every run, all connections of a client to a service with affinity go to one backend while its visits follow each other in time and the backend stays active in the service |
| `Lb.FirstVisit` | bpf/lib/lb.h:2258-2293 | a client without connections becomes loyal to the backend of its first one |
| `Lb.SoleIsChosen` | bpf/lib/lb.h:2204-2352 | a service with one active backend sends every packet there, whatever is tracked |
| `LbXlate.MoveAddress` | bpf/lib/lb.h:2061-2080 | an address and the header checksum, with each failure |
| `LbXlate.DnatRequest` | bpf/lib/lb.h:2047-2090 | destination translation in place: address fix before port fix, a backend without port keeps the packet's |
| `LbXlate.RevNatReply` | bpf/lib/lb.h:1581-1646 | source translation in place: port fix before address fix |
| `LbXlate.HopDown` | bpf/lib/ipv4.h:61-77 | the hop count drops by one, or the packet is dropped |
| `LbXlate.DnatTranslates` | bpf/lib/lb.h:2047-2090 | the request translation keeps both checksums valid, for all addresses and ports |
| `LbXlate.RevNatTranslates` | bpf/lib/lb.h:1581-1646 | so does the reply translation |
| `LbXlate.DecTtlKeepsChecksums` | bpf/lib/ipv4.h:61-77 | so does the hop, which touches only the hop count and the header checksum |
| `NodePort.LbNode.TrackConnection` | bpf/lib/nodeport.h:2766-2796 | the forward lookup for the same service, and the entry with its service index |
| `NodePort.LbNode.NatEgress` | bpf/lib/nodeport.h:2479-2577 | hop, source NAT, and the other port range when the first is full |
| `NodePort.LbNode.DsrEgress` | bpf/lib/nodeport.h:2029-2080 | the option for the service address, and the hop |
| `NodePort.LbNode.HandleRequest` | bpf/lib/nodeport.h:2631-2833 | refusals, balancing, the punt of a local L7 backend, translation, and for a local backend tracking, for a remote one DSR or tracking and source NAT |
| `NodePort.LbNode.RevDnatReply` | bpf/lib/nodeport.h:2203-2355 | reverse lookup, reverse translation and hop |
| `NodePort.LbNode.HandleIcmpReply` | bpf/lib/nat.h:1259-1315 | an echo reply by its id, an ICMP error by the packet it embeds, anything else to the stack |
| `NodePort.LbNode.HandleReply` | bpf/lib/nodeport.h:2396-2477 | both port ranges, reverse source NAT, then the above; ICMP takes the reverse source NAT only |
| `NodePortPath.NatRequestMaps` | bpf/lib/nodeport.h:2568-2577 | both NAT tries together leave a paired flow with a looked-up port if and only if a mapping they reuse is clean |
| `NodePortPath.NatRequestKeeps` | bpf/lib/nodeport.h:2568-2577 | both tries keep every mapped flow that they do not displace |
| `NodePortPath.TrackStep` | bpf/lib/nodeport.h:2766-2796 | a tracked request leaves an entry that names its service, and touches no other |
| `NodePortPath.RequestEstablishes` | bpf/lib/nodeport.h:2479-2833 | a request c:cp -> v:vp leaves as node:port -> b:bp with valid checksums, whatever the tables hold; the node remembers the connection if and only if a reused mapping is clean |
| `NodePortPath.RequestSentIff` | bpf/lib/nodeport.h:2479-2833 | a well-formed request is sent on if and only if no check refuses it, a remote backend is found, the entry stored, a hop left and a NAT mapping made |
| `NodePortPath.ReplyReturns` | bpf/lib/nodeport.h:2203-2477 | the backend's reply leaves as v:vp -> c:cp with valid checksums if and only if it is no bare SYN that finds the entry closing |
| `NodePortPath.SynAfterFinIsLost` | bpf/lib/nodeport.h:2203-2477 | the exception: after a FIN that comes back, a bare SYN of the backend does not |
| `NodePortPath.ReplyReachesClientIff` | bpf/lib/nodeport.h:2203-2477 | the reply of a tracked connection reaches its client as v:vp -> c:cp if and only if its NAT key is looked up and leads to the client, the conntrack step that the entry may ask for works, and it is no bare SYN that finds the entry closing |
| `NodePortPath.EstablishedIff` | bpf/lib/nodeport.h:2203-2477 | a tracked connection is established if and only if its key leads back without conntrack step |
| `NodePortPath.EvictedKeyIsMisdelivered` | bpf/lib/nat.h:392-421 | from every node with an empty NAT table: the reply key is evicted, a second client with the same source port is given it, the first client's next request leaves from the same source, and the reply goes to the second client |
| `NodePortPath.RequestKeeps` | bpf/lib/nodeport.h:2479-2833 | any request, in SNAT or DSR mode, keeps an established connection unless it tracks another service under its key or displaces its mapping |
| `NodePortPath.ReplyKeeps` | bpf/lib/nodeport.h:2203-2477 | any reply, ICMP included, keeps it |
| `NodePortPath.EventKeeps` | bpf/lib/nat.h:348-516 | so do source NAT steps of all other flows, lookups, and writes and evictions of other keys |
| `NodePortPath.RunKeeps` | bpf/lib/nodeport.h:2203-2833 | so does any run of these |
| `NodePortPath.RoundTrip` | bpf/lib/nodeport.h:2203-2833 | end to end: request, any other use of the two tables that does not overwrite the connection's keys, and the reply leaves as v:vp -> c:cp with valid checksums |
| `NodePortPath.OtherClientSpares` | bpf/lib/nodeport.h:2631-2833 | where every flow is backed, requests of other clients never overwrite the connection |
| `NodePortPath.RegularRunIsClean` | bpf/lib/nat.h:264-516 | over every run of NodePort packets, source NAT of all flows with echo ids of any value, table writes and evictions that spare reverse entries, every mapping of a TCP or UDP flow is clean |
| `Dsr.BackendNode.Track` | bpf/lib/nodeport.h:2082-2136 | a packet with DSR info, or of a known DSR flow, is tracked; TCP info always renews the entry |
| `Dsr.BackendNode.Receive` | bpf/lib/nodeport.h:1898-1985 | which segments count as DSR, and what a bare SYN without info clears |
| `Dsr.BackendNode.ReceiveFrame` | bpf/lib/nodeport.h:2839-2908 | the same on a packet: tuple, option and flags are read from it, with each drop |
| `Dsr.BackendNode.SendReply` | bpf/lib/nodeport_egress.h:486-556 | a backend's reply: the stored source, the reverse lookup and the translation |
| `Dsr.TrackDsrTracks` | bpf/lib/nodeport.h:2082-2136 | what one tracked packet makes of the stored translation |
| `Dsr.RunTracks` | bpf/lib/nodeport.h:1898-2136 | in every run of all flows, with evictions and other programs' lookups and writes, the table holds exactly what the flow's own packets said |
| `Dsr.ReplyGetsServiceAddress` | bpf/lib/nodeport.h:2139-2191 | the source given to a reply is exactly that history |
| `Dsr.InfoIsLearnedIff` | bpf/lib/nodeport.h:2082-2136 | info that could be stored is known from then on, whatever the table held, if and only if the flow is TCP or was not known with other info |
| `Dsr.SecondUdpInfoIsIgnored` | bpf/lib/nodeport.h:2117-2129 | the second info of a UDP flow does not change its replies |
| `Dsr.SynDecidesReplies` | bpf/lib/nodeport.h:1898-2191 | a stored SYN with v:vp, in any table, gives v:vp to all later replies until the flow sends new info or a bare SYN without info, or its entry is written or evicted |
| `Dsr.BareSynEndsTranslation` | bpf/lib/nodeport.h:1964-1973 | that bare SYN does end it |
| `DsrOption.InsertOption` | bpf/lib/nodeport.h:1777-1831 | the IPv4 option is inserted with its checksum difference, or refused |
| `DsrOption.InsertedVerifies` | bpf/lib/nodeport.h:1777-1831 | the longer header's checksum is valid |
| `DsrOption.ExtractInserted` | bpf/lib/nodeport.h:1927-1948 | a receiver reads back the address and port that were put in |
| `DsrOption.OptionReadBack` | bpf/lib/nodeport.h:1777-1831 | the same for every packet with room for the option, whatever its checksum, and the rest of the packet as before |
| `DsrOption.InsertKeepsHeader` | bpf/lib/nodeport.h:1777-1831 | the option is accepted if and only if it fits into 60 header bytes; then ihl is at most 15, the checksum valid, the info readable and the rest unchanged |
| `DsrPath.OptionCarries` | bpf/lib/nodeport.h:1777-1831 | the larger packet has the same ends, flags and hop count, two valid checksums, and the info |
| `DsrPath.RequestCarriesService` | bpf/lib/nodeport.h:2029-2833 | in DSR mode a UDP packet, a SYN or the first packet to a new backend, c:cp -> v:vp, leaves as c:cp -> b:bp, carries v:vp and has valid checksums |
| `DsrPath.ArrivalIsLearned` | bpf/lib/nodeport.h:1898-2136 | the backend's node, with any table, reads flow, flags and v:vp from that packet and keeps v:vp over any run that does not disturb the flow |
| `DsrPath.TrackedReplyReturns` | bpf/lib/nodeport_egress.h:486-556 | a reply of a tracked flow leaves as v:vp -> c:cp with valid checksums if and only if it is no bare SYN that finds the entry closing |
| `DsrPath.SynAfterFinIsUntranslated` | bpf/lib/nodeport_egress.h:486-556 | the exception: after a FIN that leaves as v:vp -> c:cp, a bare SYN of the backend does not |
| `DsrPath.ServiceAddressCrossesNodes` | bpf/lib/nodeport.h:1777-2833 | end to end over both nodes: one packet c:cp -> v:vp crosses from the load balancer's node to the backend's, and the backend's replies leave as v:vp -> c:cp |
| `Ipv6Ext.HdrlenOffset` | bpf/lib/ipv6.h:121-164 | the loop computes the walk, including the last fragment header |
| `Ipv6Ext.WalkFollowsChain` | bpf/lib/ipv6.h:79-164 | the walk ends at the L4 header of the chain if and only if it has an iteration for every header |
| `Ipv6Ext.Sender6.InsertExt` | bpf/lib/nodeport.h:444-482 | the destination options header is inserted in front of the other headers |
| `Ipv6Ext.FindDsr` | bpf/lib/nodeport.h:560-594 | the loop computes the search |
| `Ipv6Ext.FoundIsOption` | bpf/lib/nodeport.h:560-594 | what the search finds is a DSR option on the packet's own chain |
| `Ipv6Ext.OptionNotMissed` | bpf/lib/nodeport.h:560-594 | an option within four headers is not missed |
| `Ipv6Ext.ExtractsInserted` | bpf/lib/nodeport.h:444-482 | a receiver finds the inserted option first and reads back address and port |
| `Ipv6Ext.WalkOverOption` | bpf/lib/ipv6.h:121-164 | the walk over the larger packet is the walk over the original with one header less, 24 bytes further on |
| `Ipv6Ext.OptionHarmlessIffTwoHeaders` | bpf/lib/ipv6.h:121-164 | with up to two extension headers the same protocol is found 24 bytes further on; with three the packet is no longer parsed |
| `Ipv6Ext.ThirdHeaderBreaks` | bpf/lib/ipv6.h:121-164 | a TCP packet with three extension headers that is parsed without the option and rejected with it |
| `Nat46x64.MappedIff` | bpf/lib/nat_46x64.h:16-73 | the recognisers accept exactly what the builders build, and the IPv4 address comes back |
| `Nat46x64.ConvertIcmp` | bpf/lib/nat_46x64.h:105-260 | ICMP headers in both directions with the difference for the checksum; an unsupported type yields its error code |
| `Nat46x64.Translate46` | bpf/lib/nat_46x64.h:262-317 | the IPv6 header, the ICMP message and the L4 checksum in place |
| `Nat46x64.Translate64` | bpf/lib/nat_46x64.h:319-374 | the IPv4 header, the ICMP message and the L4 checksum in place |
| `Nat46x64.To6KeepsChecksum` | bpf/lib/nat_46x64.h:262-317 | a valid TCP, UDP or ICMP checksum is valid behind the IPv6 header, for all addresses and every supported ICMP type |
| `Nat46x64.To6Unsummed` | bpf/lib/nat_46x64.h:262-317 | an absent UDP checksum is passed on |
| `Nat46x64.To6AcceptedIff` | bpf/lib/nat_46x64.h:262-317 | what an IPv4 receiver accepts, an IPv6 receiver accepts after the translation if and only if it is not UDP without checksum |
| `Nat46x64.NewHeaderVerifies` | bpf/lib/nat_46x64.h:334-352 | the new IPv4 header's checksum is valid |
| `Nat46x64.To4KeepsChecksum` | bpf/lib/nat_46x64.h:319-374 | a valid checksum stays valid behind the IPv4 header; for ICMP if and only if something besides the checksum is not zero |
| `Nat46x64.ThereAndBack` | bpf/lib/nat_46x64.h:376-400 | for mapped and for prefixed addresses, both translations give back length, hop count, protocol, addresses, payload, echo id and sequence; type of service, id and fragment fields are zero |
| `Nat46x64.ChecksumThereAndBack` | bpf/lib/lb.h:1361-1375 | and the L4 checksum is valid after each step, with the exact exception |
| `Nat46x64.BlankEchoReplyBreaks` | bpf/lib/nat_46x64.h:319-374 | the exception exists |
| `SockLb.SocketLb.UpdateRevNat` | bpf/bpf_sock.c:145-179 | an equal entry is not written again, so it cannot fail |
| `SockLb.SocketLb.SelectBackend` | bpf/bpf_sock.c:399-447 | the namespace's remembered backend while it exists, or a slot's, which is remembered |
| `SockLb.SocketLb.XlateFwd` | bpf/bpf_sock.c:298-464 | every reason to refuse or leave an address, the choice of the backend with its affinity, and the translation with its reverse entry |
| `SockLb.SocketLb.XlateRev` | bpf/bpf_sock.c:588-632 | the frontend comes back, and a stale entry is deleted |
| `SockLb.SocketLb.DeleteRevNat` | bpf/bpf_sock.c:181-193 | a released socket's entry is removed |
| `SockLb.SocketLb.XlateFwd6` | bpf/bpf_sock.c:866-896 | the IPv4 path of an IPv6 socket |
| `SockLb.SocketLb.XlateRev6` | bpf/bpf_sock.c:1196-1224 | the same backwards |
| `SockLb.TranslatedIsCurrent` | bpf/bpf_sock.c:606-625 | with fixed service tables what was translated is never stale |
| `SockLb.TableAgrees` | bpf/bpf_sock.c:298-632 | in every run of all sockets, with changing backends, the table holds exactly the history of each socket |
| `SockLb.ReverseIsLastFrontend` | bpf/bpf_sock.c:588-632 | reversing a backend address gives exactly the frontend that this socket last had translated to it, or nothing |
| `SockLb.MappedCommutes` | bpf/bpf_sock.c:866-896 | on v4-mapped addresses translating, reversing and releasing commute with the IPv4 path |
| `Edt.Throttle.SchedDeparture` | bpf/lib/edt.h:64-115 | one aggregate's last departure, the packet's time stamp, queue mapping and priority, or a drop |
| `Edt.DepartureTime` | bpf/lib/edt.h:89-107 | a drop changes nothing; otherwise the packet leaves at the new last departure, and a written time stamp lies between now and the horizon |
| `Edt.SpacedIffNoWrap` | bpf/lib/edt.h:93-107 | a departure is at least the previous one plus len * 10^9 / bps if and only if the sum does not wrap |
| `Edt.WrapSendsEarly` | bpf/lib/edt.h:93-98 | after a wrap a packet leaves at once |
| `Edt.SaneNoWrap` | bpf/lib/edt.h:89-107 | with clock, time stamps and horizon below 2^63 it never wraps |
| `Edt.PacingBound` | bpf/lib/edt.h:64-115 | over every run, bytes * 10^9 + n <= bps * (elapsed + n) for the n packets sent |

## Left out

- Fragments, SCTP, multicast and the IPv6 twins of the IPv4 code, except where a file above is about IPv6.
- Kernel helpers, FIB lookup, redirects, tunnels, DSR with IPIP or Geneve, and the ICMP answers to oversized DSR packets.
- Policy map matching, authentication, rate limiting, metrics and trace or drop notifications; policy verdicts are inputs.
- Whether a packet needs masquerading (`__snat_v4_needs_masquerade`) and the egress gateway.
- What the service checks in front of the balancing decide (source ranges, traffic policies, L7 services): their verdict is an input.
- Maglev tables: the id they yield is an input.
- Conntrack fields that only other programs use (source identity, proxy, tunnel and loopback marks, byte counts). The translation and the backend id share storage in the source; here they are separate fields.
- Races between CPUs, except in the SNAT allocator; eviction, except where a lemma mentions it.
- Other programs that write the connection table which the host firewall reads.
- IPv6 services and the IPv6 reverse table of the socket load balancer.
- SnatConcurrent.InterleavedRepairIsSafeIff: no eviction, and no forward-side repair or stale replacement, which are modelled for one CPU in `Snat`.
- Snat.SequentialPairing: without eviction; after a reverse entry is evicted another flow may take its key while the old forward entry survives.
- Snat.SnatMap.Reserve: does not claim that a free port is found; the search stops after 32 tries.
- IcmpError.ErrorKeepsIcmpChecksum: embedded TCP and UDP only; the computed difference is not meant for an embedded echo.
- Nat46x64.ThereAndBack: TCP, checksummed UDP and ICMP echo only; an ICMP error does not come back, because several codes share one counterpart.
- Nat46x64.ConvertIcmp: an unsupported ICMP type is passed on with its error code as checksum difference, as in the source; nothing is claimed about it.
- NodePort.LbNode.HandleRequest: the service checks and the lookup whether the backend is local are inputs.
- NodePortPath.RoundTrip: service port not zero, since the reverse NAT entry of a service with port 0 keeps the backend's port.
