/**
 Direct server return on the backend's node, for IPv4 with the service address in an IP option
 (bpf/lib/nodeport.h). The load balancer's node has already translated the destination to the
 backend and put the service address and port into the packet.
 */
module Dsr {
  import opened Net
  import opened Conntrack
  import DsrOption
  import LbXlate
  import NodePort
  import Packet

  /** The client's flow to the backend. */
  datatype Flow = Flow(client: u32, clientPort: u16, backend: u32, backendPort: u16, proto: u8) {
    /** The tuple that lb4_extract_tuple reads from the client's packet. */
    function RequestTuple(): Tuple {
      Tuple(backend, client, clientPort, backendPort, proto, OUT)
    }

    /** The tuple that it reads from the backend's reply. */
    function ReplyTuple(): Tuple {
      Tuple(client, backend, backendPort, clientPort, proto, OUT)
    }
  }

  /**
   A packet of the flow on its way to the backend. `info` is the DSR option; TCP flags are absent
   when there is no L4 header.
   */
  datatype Segment = Segment(flow: Flow, info: Option<Endpoint>, flags: Option<FlagByte>, createFails: bool, now: u64) {
    predicate IsTcp() {
      flow.proto == TCP
    }

    predicate BareSyn() {
      flags.Some? && SYN in flags.value && ACK !in flags.value
    }
  }

  datatype StepOut = StepOut(table: Table, ret: Ret, dsr: bool)

  const DSR_TYPE := Types(false, true, false)
  const REV_TYPES := Types(true, true, false)

  function SegmentQuery(s: Segment): Query {
    Query(Egress, DSR_TYPE, None, s.IsTcp(), if s.IsTcp() then s.flags else None, s.now)
  }

  /** Clears the DSR mark of an entry, if there is one. */
  function ClearDsr(m: Table, k: Tuple): Table {
    if k in m then m[k := m[k].(dsr := false)] else m
  }

  /** nodeport_dsr_ingress_ipv4 for a packet with the given info (port 0: none). */
  function TrackDsr(m: Table, s: Segment, info: Endpoint, c: Timeouts): StepOut {
    var k := s.flow.RequestTuple().ReverseSameDir();
    var found := LazyLookup(m, k, ScopeForward, c, SegmentQuery(s));
    if found.status == New || (s.IsTcp() && info.port != 0) then
      if info.port == 0 then StepOut(found.table, DropInvalid, true)
      else
        var st := NO_STATE.(natAddr := info.addr, natPort := info.port, dsr := true);
        var out := CreateFlow(found.table, false, k, NewEntry(st, k, Egress, c, s.now % U32), false, s.createFails);
        StepOut(out.table, out.ret, true)
    else StepOut(found.table, Ok, true)
  }

  /** nodeport_extract_dsr_v4 followed by the tracking step. */
  function ReceiveSegment(m: Table, s: Segment, c: Timeouts): StepOut {
    var k := s.flow.RequestTuple().ReverseSameDir();
    if s.info.Some? then TrackDsr(m, s, s.info.value, c)
    else if !s.IsTcp() then StepOut(m, Ok, false)
    else if s.BareSyn() then StepOut(ClearDsr(m, k), Ok, false)
    else if k in m && m[k].dsr then TrackDsr(m, s, Endpoint(0, 0), c)
    else StepOut(m, Ok, false)
  }

  /** What a packet is to the backend's node: turned away, possibly after its info was read, or a segment. */
  datatype Reading = Refused(ret: Ret, dsr: bool) | Read(s: Segment)

  function ReadPacket(b: Packet.Buf, l3: nat, createFails: bool, now: u64): Reading {
    match NodePort.ExtractTuple(b, l3)
    case NotExtracted(ret) => Refused(if ret == DropUnknownL4 then Ok else ret, false)
    case Extracted(t, l4) =>
      var info := DsrOption.Extract(b, l3);
      if info.Unreadable? then Refused(DropInvalid, false)
      else if !NodePort.FlagsReadable(b, l4, t.nexthdr) then Refused(DropCtInvalidHdr, info.Info?)
      else
        Read(Segment(Flow(t.saddr, t.dport, t.daddr, t.sport, t.nexthdr),
                     if info.Info? then Some(Endpoint(info.addr, info.port)) else None,
                     NodePort.Flags(b, l4, t.nexthdr), createFails, now))
  }

  /** A packet that is not for a service of this node. */
  function ReceivePacket(m: Table, b: Packet.Buf, l3: nat, createFails: bool, now: u64, c: Timeouts): StepOut {
    match ReadPacket(b, l3, createFails, now)
    case Refused(ret, dsr) => StepOut(m, ret, dsr)
    case Read(s) => ReceiveSegment(m, s, c)
  }

  /**
   nodeport_rev_dnat_get_info_ipv4: the source that a reply is given. `services` is the reverse NAT
   table, `legacy` the SNAT entry that older versions stored the translation in.
   */
  function RevDnatInfo(m: Table, reply: Tuple, services: map<u16, Endpoint>, legacy: Option<Endpoint>): Option<Endpoint> {
    var k := reply.(flags := OUT);
    if k !in m then None
    else if m[k].nodePort then
      if m[k].revNatIndex != 0 && m[k].revNatIndex in services then Some(services[m[k].revNatIndex]) else None
    else if !m[k].dsr then None
    else if m[k].natPort != 0 then Some(Endpoint(m[k].natAddr, m[k].natPort))
    else legacy
  }

  datatype ReplyOut = ReplyOut(table: Table, buf: Packet.Buf, ret: Ret, translated: bool)

  /** The lookup of a backend's reply. */
  function ReplyQuery(tcp: bool, flags: Option<FlagByte>, now: u64): Query {
    Query(Ingress, REV_TYPES, Some(0), tcp, if tcp then flags else None, now)
  }

  /** nodeport_rev_dnat_fwd_ipv4; `route` is what the route lookup with the new source returns. */
  function TranslateReply(m: Table, b: Packet.Buf, l3: nat, services: map<u16, Endpoint>, legacy: Option<Endpoint>,
                          route: Ret, now: u64, c: Timeouts): ReplyOut
  {
    match NodePort.ExtractTuple(b, l3)
    case NotExtracted(ret) => ReplyOut(m, b, if ret == DropUnknownL4 then Ok else ret, false)
    case Extracted(t, l4) =>
      var v := RevDnatInfo(m, t, services, legacy);
      if v.None? then ReplyOut(m, b, Ok, false)
      else if route != Ok then ReplyOut(m, b, route, false)
      else if !NodePort.FlagsReadable(b, l4, t.nexthdr) then ReplyOut(m, b, Ok, false)
      else
        var q := ReplyQuery(t.nexthdr == TCP, NodePort.Flags(b, l4, t.nexthdr), now);
        var found := LazyLookup(m, t, ScopeReverse, c, q);
        if found.status != ReplyTo then ReplyOut(found.table, b, Ok, false)
        else
          var w := LbXlate.RevNat(b, t.nexthdr, l3, l4, t.saddr, t.dport, v.value.addr, v.value.port, true);
          ReplyOut(found.table, w.buf, w.ret, w.ret == Ok)
  }

  // ---- the imperative form ----

  class BackendNode {
    const ct: CtMap

    constructor ()
      ensures ct.entries == map[] && fresh(ct)
    {
      ct := new CtMap();
    }

    method Track(s: Segment, info: Endpoint, c: Timeouts) returns (ret: Ret)
      modifies ct
      ensures var out := TrackDsr(old(ct.entries), s, info, c);
              ct.entries == out.table && ret == out.ret
    {
      var tuple := s.flow.RequestTuple().ReverseSameDir();
      var q := SegmentQuery(s);
      tuple := tuple.(flags := TupleType(Egress, ScopeForward));
      var status, t, entry := ct.LookupBoth(tuple, ScopeForward, c, q);
      if status != New && !(s.IsTcp() && info.port != 0) {
        return Ok;
      }
      if info.port == 0 {
        return DropInvalid;
      }
      var st := NO_STATE.(natAddr := info.addr, natPort := info.port, dsr := true);
      ret := ct.CreateEntry(false, tuple, st, Egress, c, s.now % U32, false, s.createFails);
    }

    method Receive(s: Segment, c: Timeouts) returns (ret: Ret, dsr: bool)
      modifies ct
      ensures StepOut(ct.entries, ret, dsr) == ReceiveSegment(old(ct.entries), s, c)
    {
      hide LazyLookup, CreateFlow, NewEntry;
      var info := Endpoint(0, 0);
      dsr := false;
      if s.info.Some? {
        dsr, info := true, s.info.value;
      } else if s.IsTcp() {
        var tmp := s.flow.RequestTuple().ReverseSameDir();
        if s.BareSyn() {
          if tmp in ct.entries {
            ct.entries := ct.entries[tmp := ct.entries[tmp].(dsr := false)];
          }
        } else {
          dsr := tmp in ct.entries && ct.entries[tmp].dsr;
        }
      }
      if !dsr {
        return Ok, false;
      }
      ret := Track(s, info, c);
    }

    method ReceiveFrame(b: Packet.Buf, l3: nat, createFails: bool, now: u64, c: Timeouts) returns (ret: Ret, dsr: bool)
      modifies ct
      ensures StepOut(ct.entries, ret, dsr) == ReceivePacket(old(ct.entries), b, l3, createFails, now, c)
    {
      hide ReceiveSegment;
      var x := NodePort.ExtractTuple(b, l3);
      if x.NotExtracted? {
        return if x.ret == DropUnknownL4 then Ok else x.ret, false;
      }
      var info := DsrOption.Extract(b, l3);
      if info.Unreadable? {
        return DropInvalid, false;
      }
      if !NodePort.FlagsReadable(b, x.l4, x.t.nexthdr) {
        return DropCtInvalidHdr, info.Info?;
      }
      var flow := Flow(x.t.saddr, x.t.dport, x.t.daddr, x.t.sport, x.t.nexthdr);
      var found := if info.Info? then Some(Endpoint(info.addr, info.port)) else None;
      ret, dsr := Receive(Segment(flow, found, NodePort.Flags(b, x.l4, x.t.nexthdr), createFails, now), c);
    }

    method SendReply(ctx: Packet.Ctx, l3: nat, services: map<u16, Endpoint>, legacy: Option<Endpoint>, route: Ret,
                     now: u64, c: Timeouts)
      returns (ret: Ret, translated: bool)
      modifies ct, ctx
      ensures ReplyOut(ct.entries, ctx.buf, ret, translated)
           == TranslateReply(old(ct.entries), old(ctx.buf), l3, services, legacy, route, now, c)
    {
      hide LookupTuple, LbXlate.RevNat, RevDnatInfo, NodePort.FlagsOf;
      var x := NodePort.ExtractTuple(ctx.buf, l3);
      if x.NotExtracted? {
        return if x.ret == DropUnknownL4 then Ok else x.ret, false;
      }
      var v := RevDnatInfo(ct.entries, x.t, services, legacy);
      if v.None? {
        return Ok, false;
      }
      if route != Ok {
        return route, false;
      }
      if !NodePort.FlagsReadable(ctx.buf, x.l4, x.t.nexthdr) {
        return Ok, false;
      }
      var q := ReplyQuery(x.t.nexthdr == TCP, NodePort.Flags(ctx.buf, x.l4, x.t.nexthdr), now);
      var status, t, entry := ct.LookupBoth(x.t.(flags := TupleType(Ingress, ScopeReverse)), ScopeReverse, c, q);
      if status != ReplyTo {
        return Ok, false;
      }
      ret := LbXlate.RevNatReply(ctx, x.t.nexthdr, l3, x.l4, x.t.saddr, x.t.dport, v.value.addr, v.value.port, true);
      translated := ret == Ok;
    }
  }

  // ---- runs of the node ----

  /**
   Client packets, parsed or raw, replies that refresh the entry, lookups and writes by other programs, and
   evictions, of any flows in any order.
   */
  datatype Event =
    | Request(s: Segment)
    | Arrival(b: Packet.Buf, l3: nat, createFails: bool, now: u64)
    | Reply(flow: Flow, flags: Option<FlagByte>, now: u64)
    | CtLookup(k: Tuple, q: Query)
    | CtWrite(k: Tuple, e: Entry)
    | Evict(k: Tuple)

  function Step(m: Table, e: Event, c: Timeouts): Table {
    match e
    case Request(s) => ReceiveSegment(m, s, c).table
    case Arrival(b, l3, createFails, now) => ReceivePacket(m, b, l3, createFails, now, c).table
    case Reply(f, flags, now) =>
      LazyLookup(m, f.ReplyTuple(), ScopeReverse, c, ReplyQuery(f.proto == TCP, flags, now)).table
    case CtLookup(k, q) => TouchKey(m, k, c, q)
    case CtWrite(k, entry) => m[k := entry]
    case Evict(k) => m - {k}
  }

  function Run(m: Table, es: seq<Event>, c: Timeouts): Table {
    if es == [] then m else Step(Run(m, es[..|es| - 1], c), es[|es| - 1], c)
  }

  function Learn(f: Flow, before: Option<Endpoint>, s: Segment): Option<Endpoint> {
    if s.flow != f then before
    else if s.info.Some? then
      if s.info.value.port != 0 && !s.createFails && (s.IsTcp() || before.None?) then s.info else before
    else if s.IsTcp() && s.BareSyn() then None
    else before
  }

  /** The DSR translation that an entry holds. */
  function InfoOf(e: Entry): Option<Endpoint> {
    if e.dsr then Some(Endpoint(e.natAddr, e.natPort)) else None
  }

  /**
   What the packets of `f` say about its translation, with no reference to any table, if `start` was known
   before: the last TCP info, or the first UDP info, until a bare SYN without info, a write or an eviction.
   */
  function History(f: Flow, start: Option<Endpoint>, es: seq<Event>): Option<Endpoint> {
    if es == [] then start
    else
      var before := History(f, start, es[..|es| - 1]);
      match es[|es| - 1]
      case Request(s) => Learn(f, before, s)
      case Arrival(b, l3, createFails, now) =>
        var p := ReadPacket(b, l3, createFails, now);
        if p.Read? then Learn(f, before, p.s) else before
      case Reply(_, _, _) => before
      case CtLookup(_, _) => before
      case CtWrite(k, e) => if k == f.ReplyTuple() then InfoOf(e) else before
      case Evict(k) => if k == f.ReplyTuple() then None else before
  }

  // ---- the theorem ----

  /** An entry of no NodePort connection, with its DSR translation complete. */
  predicate Plain(e: Entry) {
    !e.nodePort && (e.dsr ==> e.natPort != 0)
  }

  /** What the table holds for a flow agrees with `info`. */
  predicate Tracks(m: Table, f: Flow, info: Option<Endpoint>) {
    var k := f.ReplyTuple();
    && (k in m ==> Plain(m[k]))
    && (if k in m then InfoOf(m[k]) else None) == info
  }

  /** Other programs write at most plain entries under the flow's key. */
  predicate PlainWrites(es: seq<Event>, f: Flow) {
    forall e :: e in es && e.CtWrite? && e.k == f.ReplyTuple() ==> Plain(e.e)
  }

  lemma TrackDsrTracks(m: Table, s: Segment, i: Endpoint, c: Timeouts, f: Flow, info: Option<Endpoint>)
    requires Tracks(m, f, info)
    requires s.flow == f && i.port == 0 ==> info.Some? || s.info.Some?
    ensures Tracks(TrackDsr(m, s, i, c).table, f,
                   if s.flow == f && i.port != 0 && !s.createFails && (s.IsTcp() || info.None?) then Some(i) else info)
  {
    hide Touch, Refresh;
  }

  lemma SegmentTracks(m: Table, s: Segment, c: Timeouts, f: Flow, before: Option<Endpoint>)
    requires Tracks(m, f, before)
    ensures Tracks(ReceiveSegment(m, s, c).table, f, Learn(f, before, s))
  {
    hide Touch, TrackDsr;
    if s.info.Some? {
      TrackDsrTracks(m, s, s.info.value, c, f, before);
    } else if s.IsTcp() && !s.BareSyn() {
      var k := s.flow.RequestTuple().ReverseSameDir();
      if k in m && m[k].dsr {
        TrackDsrTracks(m, s, Endpoint(0, 0), c, f, before);
      }
    }
  }

  lemma StepTracks(m: Table, e: Event, c: Timeouts, f: Flow, start: Option<Endpoint>, es: seq<Event>)
    requires es != [] && es[|es| - 1] == e && Tracks(m, f, History(f, start, es[..|es| - 1]))
    requires e.CtWrite? && e.k == f.ReplyTuple() ==> Plain(e.e)
    ensures Tracks(Step(m, e, c), f, History(f, start, es))
  {
    hide Touch, ReceiveSegment, Learn, ReadPacket;
    var before := History(f, start, es[..|es| - 1]);
    match e
    case Request(s) => SegmentTracks(m, s, c, f, before);
    case Arrival(b, l3, createFails, now) =>
      var p := ReadPacket(b, l3, createFails, now);
      if p.Read? {
        SegmentTracks(m, p.s, c, f, before);
      }
    case Reply(g, flags, now) =>
    case CtLookup(k, q) =>
    case CtWrite(k, entry) =>
    case Evict(k) =>
  }

  lemma {:induction false} RunTracks(m: Table, es: seq<Event>, c: Timeouts, f: Flow, start: Option<Endpoint>)
    requires Tracks(m, f, start) && PlainWrites(es, f)
    ensures Tracks(Run(m, es, c), f, History(f, start, es))
  {
    hide Step, Tracks, Plain;
    if es != [] {
      var before := es[..|es| - 1];
      RunTracks(m, before, c, f, start);
      assert es[|es| - 1] in es;
      StepTracks(Run(m, before, c), es[|es| - 1], c, f, start, es);
    }
  }

  /** In every run, the source given to a reply is exactly what the flow's own packets said. */
  lemma ReplyGetsServiceAddress(m: Table, es: seq<Event>, c: Timeouts, f: Flow, start: Option<Endpoint>,
                                services: map<u16, Endpoint>, legacy: Option<Endpoint>)
    requires Tracks(m, f, start) && PlainWrites(es, f)
    ensures RevDnatInfo(Run(m, es, c), f.ReplyTuple(), services, legacy) == History(f, start, es)
  {
    RunTracks(m, es, c, f, start);
  }

  predicate SegmentDisturbs(s: Segment, f: Flow) {
    s.flow == f && (s.info.Some? || s.BareSyn())
  }

  /** Events that may change the flow's translation: new info, a bare SYN without info, a write, an eviction. */
  predicate Disturbs(e: Event, f: Flow) {
    match e
    case Request(s) => SegmentDisturbs(s, f)
    case Arrival(b, l3, createFails, now) =>
      var p := ReadPacket(b, l3, createFails, now);
      p.Read? && SegmentDisturbs(p.s, f)
    case Reply(_, _, _) => false
    case CtLookup(_, _) => false
    case CtWrite(k, _) => k == f.ReplyTuple()
    case Evict(k) => k == f.ReplyTuple()
  }

  lemma {:induction false} HistoryKept(f: Flow, start: Option<Endpoint>, es: seq<Event>)
    requires forall e :: e in es ==> !Disturbs(e, f)
    ensures History(f, start, es) == start
  {
    if es != [] {
      assert !Disturbs(es[|es| - 1], f);
      HistoryKept(f, start, es[..|es| - 1]);
    }
  }

  /** The table takes info `v` for the flow: TCP, or a flow not yet known with other info. */
  predicate Takes(m: Table, f: Flow, v: Endpoint) {
    var k := f.ReplyTuple();
    f.proto == TCP || (k in m && m[k].dsr ==> Plain(m[k]) && InfoOf(m[k]) == Some(v))
  }

  /** Exactly then info that could be stored is known from then on. */
  lemma InfoIsLearnedIff(m: Table, s: Segment, c: Timeouts)
    requires s.info.Some? && s.info.value.port != 0 && !s.createFails
    ensures Tracks(ReceiveSegment(m, s, c).table, s.flow, s.info) <==> Takes(m, s.flow, s.info.value)
  {
    hide Touch, Refresh;
  }

  /** The second info of a UDP flow is ignored: its replies keep the first service address. */
  lemma SecondUdpInfoIsIgnored(s1: Segment, s2: Segment, c: Timeouts, services: map<u16, Endpoint>, legacy: Option<Endpoint>)
    requires s1.flow == s2.flow && s1.flow.proto == UDP && s1.info.Some? && s2.info.Some?
    requires s1.info.value.port != 0 && !s1.createFails
    ensures var m := Run(map[], [Request(s1), Request(s2)], c);
            RevDnatInfo(m, s1.flow.ReplyTuple(), services, legacy) == s1.info
  {
    var es := [Request(s1), Request(s2)];
    assert es[..1] == [Request(s1)] && es[..1][..0] == [];
    assert History(s1.flow, None, es[..1]) == s1.info;
    ReplyGetsServiceAddress(map[], es, c, s1.flow, None, services, legacy);
  }

  /** What is known is kept by every run that does not disturb the flow. */
  lemma UndisturbedTracks(m: Table, f: Flow, v: Option<Endpoint>, later: seq<Event>, c: Timeouts)
    requires Tracks(m, f, v) && forall e :: e in later ==> !Disturbs(e, f)
    ensures Tracks(Run(m, later, c), f, v)
  {
    hide Tracks, Step;
    HistoryKept(f, v, later);
    RunTracks(m, later, c, f, v);
  }

  /**
   A SYN that carries v:vp and is stored, whatever the table held before, decides the source of every
   later reply, until new info, a bare SYN without info, a write or an eviction of the flow's entry.
   */
  lemma SynDecidesReplies(m: Table, s: Segment, later: seq<Event>, c: Timeouts,
                          services: map<u16, Endpoint>, legacy: Option<Endpoint>)
    requires s.IsTcp() && s.info.Some? && s.info.value.port != 0 && !s.createFails
    requires forall e :: e in later ==> !Disturbs(e, s.flow)
    ensures RevDnatInfo(Run(ReceiveSegment(m, s, c).table, later, c), s.flow.ReplyTuple(), services, legacy) == s.info
  {
    hide ReceiveSegment, Run, Disturbs;
    InfoIsLearnedIff(m, s, c);
    UndisturbedTracks(ReceiveSegment(m, s, c).table, s.flow, s.info, later, c);
  }

  /** That bare SYN does end the translation. */
  lemma BareSynEndsTranslation(m: Table, s: Segment, c: Timeouts, services: map<u16, Endpoint>, legacy: Option<Endpoint>)
    requires s.IsTcp() && s.info.None? && s.BareSyn()
    requires s.flow.ReplyTuple() in m ==> !m[s.flow.ReplyTuple()].nodePort
    ensures RevDnatInfo(ReceiveSegment(m, s, c).table, s.flow.ReplyTuple(), services, legacy) == None
  {
  }
}
