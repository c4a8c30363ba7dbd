/**
 NodePort for unfragmented IPv4 TCP and UDP with native routing (bpf/lib/nodeport.h). In SNAT mode a
 request is balanced to a remote backend, tracked, and given the node's own source; the reply undoes
 both translations. In DSR mode the request carries the service address to the backend's node. ICMP
 replies take the reverse source NAT only.
 */
module NodePort {
  import opened Net
  import opened Packet
  import opened Translation
  import Conntrack
  import DsrOption
  import IcmpError
  import Lb
  import LbXlate
  import PortRange
  import Snat

  const TCP_FLAGS := 6

  /** The node's maps. */
  datatype Node = Node(lb: Lb.Maps, snat: Snat.Table)

  /** Fixed configuration: NAT port ranges, timeouts and the reverse NAT table of the services. */
  datatype Setup = Setup(ranges: PortRange.Config, timeouts: Conntrack.Timeouts, services: map<u16, Endpoint>)

  /**
   What a request meets: a service check that turns it away, services and backends, where the chosen
   backend runs, its NAT source address, and helper results.
   */
  datatype ReqEnv = ReqEnv(
    refused: Option<Ret>, lb: Lb.Env, backendLocal: bool, hostPort: bool, dsr: Option<DsrEnv>,
    createFails: bool, source: u32, coin: bool, natEnv: Snat.Env, natRetry: Snat.Env)

  /** DSR mode: whether the packet would exceed the MTU or cannot be enlarged. */
  datatype DsrEnv = DsrEnv(tooBig: bool, noRoom: bool)

  datatype RepEnv = RepEnv(natEnv: Snat.Env, now: u64)

  /** `redirected` is false when the packet goes back to the regular path instead. */
  datatype Outcome = Outcome(node: Node, buf: Buf, ret: Ret, redirected: bool)

  function Pow2(i: nat): nat {
    if i == 0 then 1 else 2 * Pow2(i - 1)
  }

  lemma {:induction false} Pow2Positive(i: nat)
    ensures Pow2(i) > 0
  {
    if i > 0 { Pow2Positive(i - 1); }
  }

  /** The TCP flag byte, as the set of its bits. */
  function FlagsOf(flags: u8): Conntrack.FlagByte {
    set i | i in Conntrack.BYTE && (Pow2Positive(i); flags / Pow2(i) % 2 == 1)
  }

  predicate FlagsReadable(b: Buf, l4: nat, proto: u8) {
    proto == TCP ==> Accessible(b, l4 + TCP_FLAGS, 1)
  }

  function Flags(b: Buf, l4: nat, proto: u8): Option<Conntrack.FlagByte>
    requires FlagsReadable(b, l4, proto)
  {
    if proto == TCP then Some(FlagsOf(b.words[l4 + TCP_FLAGS] / 256)) else None
  }

  /** The flags for the service lookup, which fails if it needs flags that cannot be read. */
  function SeenFlags(b: Buf, l4: nat, proto: u8): Option<Conntrack.FlagByte> {
    if FlagsReadable(b, l4, proto) then Flags(b, l4, proto) else Some({})
  }

  /** A tuple read from a packet, and where its L4 header is. */
  datatype Extracted = Extracted(t: Tuple, l4: nat) | NotExtracted(ret: Ret)

  /** lb4_extract_tuple: the ports come in swapped order. */
  function ExtractTuple(b: Buf, l3: nat): Extracted {
    if !Accessible(b, l3, IP_WORDS) then NotExtracted(DropInvalid)
    else
      var proto, l4 := Protocol(b, l3), l3 + HdrWords(b, l3);
      if proto != TCP && proto != UDP then NotExtracted(DropUnknownL4)
      else if !Accessible(b, l4, 2) then NotExtracted(DropCtInvalidHdr)
      else
        Extracted(Tuple(Load32(b, l3 + DADDR), Load32(b, l3 + SADDR), b.words[l4], b.words[l4 + 1], proto, OUT), l4)
  }

  // ---- requests ----

  const NODEPORT_TYPE := Conntrack.Types(true, false, false)

  /** The connection entry of a balanced request. */
  function TrackRequest(ct: Conntrack.Table, k: Tuple, flags: Option<Conntrack.FlagByte>, r: u16, now: u64,
                        createFails: bool, c: Conntrack.Timeouts): Conntrack.CreateOut
  {
    var q := Conntrack.Query(Egress, NODEPORT_TYPE, Some(r), k.nexthdr == TCP, flags, now);
    var found := Conntrack.LazyLookup(ct, k, Conntrack.ScopeForward, c, q);
    if found.status != Conntrack.New then Conntrack.CreateOut(found.table, Ok)
    else
      var st := Conntrack.NO_STATE.(revNatIndex := r, nodePort := true);
      Conntrack.CreateFlow(found.table, false, found.tuple,
                           Conntrack.NewEntry(st, found.tuple, Egress, c, now % U32), false, createFails)
  }

  /** Source NAT; when the chosen range is full, the other one is tried. */
  function NatRequest(m: Snat.Table, o: Tuple, e: ReqEnv, ranges: PortRange.Config): Snat.Outcome {
    var range := PortRange.SelectRange(ranges, e.coin);
    var out := Snat.Forward(m, o, Snat.Target(e.source, range, false), e.natEnv);
    if out.ret == DropNatNoMapping && ranges.natExt.Some? then
      Snat.Forward(out.table, o, Snat.Target(e.source, PortRange.SwapRange(ranges, range), false), e.natRetry)
    else out
  }

  /** The second half of a request, on the packet with the backend's address. */
  function SendToBackend(n: Node, b: Buf, l3: nat, e: ReqEnv, s: Setup): Outcome {
    match ExtractTuple(b, l3)
    case NotExtracted(ret) => Outcome(n, b, ret, false)
    case Extracted(t, l4) =>
      var o := t.SwapPorts();
      var hop := LbXlate.DecTtl(b, l3);
      if hop.ret != Ok then Outcome(n, hop.buf, hop.ret, false)
      else
        var out := NatRequest(n.snat, o, e, s.ranges);
        var n' := n.(snat := out.table);
        if out.ret != Ok || out.entry.None? then Outcome(n', hop.buf, out.ret, false)
        else
          var w := Rewrite(hop.buf, Rewriting(t.nexthdr, l3, true, l4, o.saddr, out.entry.value.addr, SADDR,
                                              o.sport, out.entry.value.port, SPORT, 0));
          Outcome(n', w.buf, w.ret, w.ret == Ok)
  }

  /** DSR info goes into every UDP packet, every TCP SYN and the first TCP packet to a new backend. */
  predicate NeedsDsrInfo(proto: u8, syn: bool, isNew: bool) {
    proto != TCP || syn || isNew
  }

  /** The service lookup marks a SYN; it is skipped for a forced backend of an L7-punt service. */
  predicate SynMarked(t: Tuple, flags: Option<Conntrack.FlagByte>, env: Lb.Env) {
    Lb.SynSeen(t, flags) && !(env.forced.Some? && env.svc.l7Punt)
  }

  /** tail_nodeport_ipv4_dsr: the option for service `v`, and the hop. */
  function SendWithOption(n: Node, b: Buf, l3: nat, v: Endpoint, need: bool, d: DsrEnv): Outcome {
    if !Accessible(b, l3, IP_WORDS) then Outcome(n, b, DropInvalid, false)
    else
      var o := DsrOption.SetOption(b, l3, v.addr, v.port, need, d.tooBig, d.noRoom);
      if o.ret != Ok then Outcome(n, o.buf, o.ret, false)
      else
        var hop := LbXlate.DecTtl(o.buf, l3);
        Outcome(n, hop.buf, hop.ret, hop.ret == Ok)
  }

  /** The tuple of the request once it goes to backend `be`, as conntrack stores it. */
  function TrackKey(t: Tuple, be: Lb.Backend): Tuple {
    t.(daddr := be.addr, sport := if be.port != 0 then be.port else t.sport).ReverseSameDir()
  }

  /** nodeport_svc_lb4, followed for a remote backend by the DSR or the NAT tail call. */
  function Request(n: Node, b: Buf, l3: nat, e: ReqEnv, s: Setup): Outcome {
    match ExtractTuple(b, l3)
    case NotExtracted(ret) => Outcome(n, b, ret, false)
    case Extracted(t, l4) =>
      if e.refused.Some? then Outcome(n, b, e.refused.value, false)
      else
        var flags, env := SeenFlags(b, l4, t.nexthdr), e.lb.(flagsReadable := FlagsReadable(b, l4, t.nexthdr));
        var local := Lb.Local(n.lb, t, flags, env, s.timeouts);
        if local.ret != Ok || local.choice.None? then Outcome(n.(lb := local.maps), b, local.ret, false)
        else if !e.backendLocal && e.hostPort then Outcome(n.(lb := local.maps), b, DropInvalid, false)
        else if e.backendLocal && env.svc.l7Punt then Outcome(n.(lb := local.maps), b, Ok, false)
        else
          var be := local.choice.value.backend;
          var d := LbXlate.Dnat(b, t.nexthdr, l3, l4, t.daddr, t.sport, be.addr, be.port, true);
          if d.ret != Ok then Outcome(n.(lb := local.maps), d.buf, d.ret, false)
          else if !e.backendLocal && e.dsr.Some? then
            SendWithOption(n.(lb := local.maps), d.buf, l3, Endpoint(t.daddr, t.sport),
                           NeedsDsrInfo(t.nexthdr, SynMarked(t, flags, env), local.choice.value.isNew), e.dsr.value)
          else
            var tracked := TrackRequest(local.maps.ct, TrackKey(t, be), flags, e.lb.svc.revNatIndex, e.lb.now,
                                        e.createFails, s.timeouts);
            var n' := n.(lb := local.maps.(ct := tracked.table));
            if tracked.ret != Ok || e.backendLocal then Outcome(n', d.buf, tracked.ret, false)
            else SendToBackend(n', d.buf, l3, e, s)
  }

  // ---- replies ----

  /** nodeport_rev_dnat_ipv4, after the source NAT was undone. */
  function RevDnat(n: Node, b: Buf, l3: nat, now: u64, s: Setup): Outcome {
    match ExtractTuple(b, l3)
    case NotExtracted(ret) => Outcome(n, b, if ret == DropUnknownL4 then Ok else ret, false)
    case Extracted(t, l4) =>
      if !FlagsReadable(b, l4, t.nexthdr) then Outcome(n, b, Ok, false)
      else
        var q := Conntrack.Query(Ingress, NODEPORT_TYPE, Some(0), t.nexthdr == TCP, Flags(b, l4, t.nexthdr), now);
        var found := Conntrack.LazyLookup(n.lb.ct, t, Conntrack.ScopeReverse, s.timeouts, q);
        var n' := n.(lb := n.lb.(ct := found.table));
        if found.status != Conntrack.ReplyTo || found.entry.None? then Outcome(n', b, Ok, false)
        else
          var r := found.entry.value.revNatIndex;
          var back :=
            if r !in s.services then Rewritten(b, Ok)
            else LbXlate.RevNat(b, t.nexthdr, l3, l4, t.saddr, t.dport, s.services[r].addr, s.services[r].port, true);
          if back.ret != Ok then Outcome(n', back.buf, back.ret, false)
          else if !Accessible(back.buf, l3, IP_WORDS) then Outcome(n', back.buf, DropInvalid, false)
          else
            var hop := LbXlate.DecTtl(back.buf, l3);
            Outcome(n', hop.buf, hop.ret, hop.ret == Ok)
  }

  /** ICMP errors that may carry a translated packet. */
  predicate IsIcmpError(icmpType: u8, code: u8) {
    (icmpType == 3 && code <= 15) || (icmpType == 11 && code <= 1)
  }

  /** The ICMP branches of snat_v4_rev_nat; an echo reply is looked up by its id. */
  function ReplyIcmp(n: Node, b: Buf, l3: nat, e: RepEnv): Outcome
    requires Accessible(b, l3, IP_WORDS)
  {
    var l4 := l3 + HdrWords(b, l3);
    if !Accessible(b, l4, 4) then Outcome(n, b, DropInvalid, false)
    else
      var icmpType, code := b.words[l4] % 256, b.words[l4] / 256;
      if icmpType == IcmpError.ECHO_REPLY then
        var r := Tuple(Load32(b, l3 + DADDR), Load32(b, l3 + SADDR), b.words[l4 + ICMP_ID], 0, ICMP, IN);
        var out := Snat.Reply(n.snat, r, e.natEnv);
        var n' := n.(snat := out.table);
        if out.ret != Ok || out.entry.None? then Outcome(n', b, out.ret, false)
        else
          var w := Rewrite(b, Rewriting(ICMP, l3, true, l4, r.daddr, out.entry.value.addr, DADDR,
                                        r.dport, out.entry.value.port, ICMP_ID, 0));
          Outcome(n', w.buf, w.ret, false)
      else if IsIcmpError(icmpType, code) then
        var x := IcmpError.TranslateError(b, n.snat, l3, l4, false);
        Outcome(n, x.buf, x.ret, false)
      else Outcome(n, b, PuntToStack, false)
  }

  /** tail_nodeport_nat_ingress_ipv4 */
  function Reply(n: Node, b: Buf, l3: nat, e: RepEnv, s: Setup): Outcome {
    match ExtractTuple(b, l3)
    case NotExtracted(ret) =>
      if ret != DropUnknownL4 then Outcome(n, b, ret, false)
      else if Accessible(b, l3, IP_WORDS) && Protocol(b, l3) == ICMP then ReplyIcmp(n, b, l3, e)
      else Outcome(n, b, PuntToStack, false)
    case Extracted(t, l4) =>
      var r := t.SwapPorts().(flags := IN);
      if !PortRange.ReplyLooksUp(s.ranges, Swap16(r.dport)) then Outcome(n, b, PuntToStack, false)
      else
        var out := Snat.Reply(n.snat, r, e.natEnv);
        var n' := n.(snat := out.table);
        if out.ret != Ok || out.entry.None? then Outcome(n', b, out.ret, false)
        else
          var w := Rewrite(b, Rewriting(t.nexthdr, l3, true, l4, r.daddr, out.entry.value.addr, DADDR,
                                        r.dport, out.entry.value.port, DPORT, 0));
          if w.ret != Ok then Outcome(n', w.buf, w.ret, false) else RevDnat(n', w.buf, l3, e.now, s)
  }

  // ---- the imperative form ----

  class LbNode {
    const balancer: Lb.Balancer
    const snat: Snat.SnatMap

    constructor ()
      ensures fresh(balancer) && fresh(balancer.ct) && fresh(snat)
      ensures Contents() == Node(Lb.Maps(map[], map[]), map[])
    {
      balancer := new Lb.Balancer();
      snat := new Snat.SnatMap();
    }

    function Contents(): Node
      reads balancer, balancer.ct, snat
    {
      Node(balancer.Contents(), snat.entries)
    }

    method TrackConnection(k: Tuple, flags: Option<Conntrack.FlagByte>, r: u16, now: u64, createFails: bool,
                           c: Conntrack.Timeouts)
      returns (ret: Ret)
      modifies balancer.ct
      ensures Conntrack.CreateOut(balancer.ct.entries, ret)
           == TrackRequest(old(balancer.ct.entries), k, flags, r, now, createFails, c)
    {
      hide Conntrack.NewEntry;
      var q := Conntrack.Query(Egress, NODEPORT_TYPE, Some(r), k.nexthdr == TCP, flags, now);
      var tuple := k.(flags := Conntrack.TupleType(Egress, Conntrack.ScopeForward));
      var status, t, entry := balancer.ct.LookupBoth(tuple, Conntrack.ScopeForward, c, q);
      ret := Ok;
      if status == Conntrack.New {
        var st := Conntrack.NO_STATE.(revNatIndex := r, nodePort := true);
        ret := balancer.ct.CreateEntry(false, tuple, st, Egress, c, now % U32, false, createFails);
      }
    }

    method NatEgress(ctx: Ctx, l3: nat, e: ReqEnv, s: Setup) returns (ret: Ret, redirected: bool)
      modifies ctx, snat
      ensures Outcome(Contents(), ctx.buf, ret, redirected) == SendToBackend(old(Contents()), old(ctx.buf), l3, e, s)
    {
      hide Snat.Forward, Rewrite, LbXlate.DecTtl;
      redirected := false;
      var range := PortRange.SelectRange(s.ranges, e.coin);
      var x := ExtractTuple(ctx.buf, l3);
      if x.NotExtracted? {
        return x.ret, false;
      }
      var o := x.t.SwapPorts();
      ret := LbXlate.HopDown(ctx, l3);
      if ret != Ok {
        return;
      }
      var entry;
      ret, entry := snat.HandleMapping(o, Snat.Target(e.source, range, false), e.natEnv);
      if ret == DropNatNoMapping && s.ranges.natExt.Some? {
        range := PortRange.SwapRange(s.ranges, range);
        ret, entry := snat.HandleMapping(o, Snat.Target(e.source, range, false), e.natRetry);
      }
      if ret != Ok || entry.None? {
        return;
      }
      ret := ctx.RewriteHeaders(Rewriting(x.t.nexthdr, l3, true, x.l4, o.saddr, entry.value.addr, SADDR,
                                          o.sport, entry.value.port, SPORT, 0));
      redirected := ret == Ok;
    }

    method DsrEgress(ctx: Ctx, l3: nat, v: Endpoint, need: bool, d: DsrEnv) returns (ret: Ret, redirected: bool)
      modifies ctx
      ensures Outcome(Contents(), ctx.buf, ret, redirected)
           == SendWithOption(old(Contents()), old(ctx.buf), l3, v, need, d)
    {
      hide DsrOption.SetOption, LbXlate.DecTtl;
      if !Accessible(ctx.buf, l3, IP_WORDS) {
        return DropInvalid, false;
      }
      ret := DsrOption.InsertOption(ctx, l3, v.addr, v.port, need, d.tooBig, d.noRoom);
      if ret != Ok {
        return ret, false;
      }
      ret := LbXlate.HopDown(ctx, l3);
      redirected := ret == Ok;
    }

    method HandleRequest(ctx: Ctx, l3: nat, e: ReqEnv, s: Setup) returns (ret: Ret, redirected: bool)
      modifies ctx, balancer, balancer.ct, snat
      ensures Outcome(Contents(), ctx.buf, ret, redirected) == Request(old(Contents()), old(ctx.buf), l3, e, s)
    {
      hide Lb.Local, LbXlate.Dnat, TrackRequest, SendToBackend, SendWithOption, FlagsOf;
      redirected := false;
      var x := ExtractTuple(ctx.buf, l3);
      if x.NotExtracted? {
        return x.ret, false;
      }
      var tuple, l4 := x.t, x.l4;
      if e.refused.Some? {
        return e.refused.value, false;
      }
      var flags := SeenFlags(ctx.buf, l4, tuple.nexthdr);
      var env := e.lb.(flagsReadable := FlagsReadable(ctx.buf, l4, tuple.nexthdr));
      var choice;
      tuple, ret, choice := balancer.LocalBackend(tuple, flags, env, s.timeouts);
      if ret != Ok || choice.None? {
        return;
      }
      if !e.backendLocal && e.hostPort {
        return DropInvalid, false;
      }
      if e.backendLocal && env.svc.l7Punt {
        return Ok, false;
      }
      var backend := choice.value.backend;
      var daddr, dport := tuple.daddr, tuple.sport;
      tuple := tuple.(daddr := backend.addr);
      if backend.port != 0 {
        tuple := tuple.(sport := backend.port);
      }
      ret := LbXlate.DnatRequest(ctx, tuple.nexthdr, l3, l4, daddr, dport, backend.addr, backend.port, true);
      if ret != Ok {
        return;
      }
      if !e.backendLocal && e.dsr.Some? {
        ret, redirected := DsrEgress(ctx, l3, Endpoint(daddr, dport),
                                     NeedsDsrInfo(tuple.nexthdr, SynMarked(x.t, flags, env), choice.value.isNew), e.dsr.value);
        return;
      }
      tuple := tuple.ReverseSameDir();
      ret := TrackConnection(tuple, flags, e.lb.svc.revNatIndex, e.lb.now, e.createFails, s.timeouts);
      if ret != Ok || e.backendLocal {
        return;
      }
      ret, redirected := NatEgress(ctx, l3, e, s);
    }

    method RevDnatReply(ctx: Ctx, l3: nat, now: u64, s: Setup) returns (ret: Ret, redirected: bool)
      modifies ctx, balancer.ct
      ensures Outcome(Contents(), ctx.buf, ret, redirected) == RevDnat(old(Contents()), old(ctx.buf), l3, now, s)
    {
      hide Conntrack.LookupTuple, LbXlate.RevNat, LbXlate.DecTtl, FlagsOf;
      redirected := false;
      var x := ExtractTuple(ctx.buf, l3);
      if x.NotExtracted? {
        return if x.ret == DropUnknownL4 then Ok else x.ret, false;
      }
      if !FlagsReadable(ctx.buf, x.l4, x.t.nexthdr) {
        return Ok, false;
      }
      var q := Conntrack.Query(Ingress, NODEPORT_TYPE, Some(0), x.t.nexthdr == TCP, Flags(ctx.buf, x.l4, x.t.nexthdr), now);
      var tuple := x.t.(flags := Conntrack.TupleType(Ingress, Conntrack.ScopeReverse));
      var status, t, entry := balancer.ct.LookupBoth(tuple, Conntrack.ScopeReverse, s.timeouts, q);
      if status != Conntrack.ReplyTo || entry.None? {
        return Ok, false;
      }
      var r := entry.value.revNatIndex;
      if r in s.services {
        ret := LbXlate.RevNatReply(ctx, x.t.nexthdr, l3, x.l4, x.t.saddr, x.t.dport, s.services[r].addr, s.services[r].port, true);
        if ret != Ok {
          return;
        }
      }
      if !Accessible(ctx.buf, l3, IP_WORDS) {
        return DropInvalid, false;
      }
      ret := LbXlate.HopDown(ctx, l3);
      redirected := ret == Ok;
    }

    method HandleIcmpReply(ctx: Ctx, l3: nat, e: RepEnv) returns (ret: Ret)
      requires Accessible(ctx.buf, l3, IP_WORDS)
      modifies ctx, snat
      ensures Outcome(Contents(), ctx.buf, ret, false) == ReplyIcmp(old(Contents()), old(ctx.buf), l3, e)
    {
      hide Snat.Reply, Rewrite, IcmpError.HandleError;
      var l4 := l3 + HdrWords(ctx.buf, l3);
      if !Accessible(ctx.buf, l4, 4) {
        return DropInvalid;
      }
      var icmpType, code := ctx.buf.words[l4] % 256, ctx.buf.words[l4] / 256;
      if icmpType == IcmpError.ECHO_REPLY {
        var tuple := Tuple(Load32(ctx.buf, l3 + DADDR), Load32(ctx.buf, l3 + SADDR), ctx.buf.words[l4 + ICMP_ID], 0, ICMP, IN);
        var entry;
        ret, entry := snat.RevHandleMapping(tuple, e.natEnv);
        if ret != Ok || entry.None? {
          return;
        }
        ret := ctx.RewriteHeaders(Rewriting(ICMP, l3, true, l4, tuple.daddr, entry.value.addr, DADDR,
                                            tuple.dport, entry.value.port, ICMP_ID, 0));
        return;
      }
      if !IsIcmpError(icmpType, code) {
        return PuntToStack;
      }
      ret := IcmpError.Translate(ctx, snat.entries, l3, l4, false);
    }

    method HandleReply(ctx: Ctx, l3: nat, e: RepEnv, s: Setup) returns (ret: Ret, redirected: bool)
      modifies ctx, balancer.ct, snat
      ensures Outcome(Contents(), ctx.buf, ret, redirected) == Reply(old(Contents()), old(ctx.buf), l3, e, s)
    {
      hide Snat.Reply, Rewrite, RevDnat, ReplyIcmp;
      redirected := false;
      var x := ExtractTuple(ctx.buf, l3);
      if x.NotExtracted? {
        if x.ret != DropUnknownL4 {
          return x.ret, false;
        }
        if Accessible(ctx.buf, l3, IP_WORDS) && Protocol(ctx.buf, l3) == ICMP {
          ret := HandleIcmpReply(ctx, l3, e);
          return ret, false;
        }
        return PuntToStack, false;
      }
      var tuple := x.t.SwapPorts().(flags := IN);
      var range := PortRange.MainRange(s.ranges);
      var skip := PortRange.RevNatCanSkip(range, Swap16(tuple.dport));
      if skip && s.ranges.natExt.Some? {
        range := PortRange.SwapRange(s.ranges, range);
        skip := PortRange.RevNatCanSkip(range, Swap16(tuple.dport));
      }
      if skip {
        return PuntToStack, false;
      }
      var entry;
      ret, entry := snat.RevHandleMapping(tuple, e.natEnv);
      if ret != Ok || entry.None? {
        return;
      }
      ret := ctx.RewriteHeaders(Rewriting(x.t.nexthdr, l3, true, x.l4, tuple.daddr, entry.value.addr, DADDR,
                                          tuple.dport, entry.value.port, DPORT, 0));
      if ret != Ok {
        return;
      }
      ret, redirected := RevDnatReply(ctx, l3, e.now, s);
    }
  }
}
