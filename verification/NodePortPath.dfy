/**
 End-to-end correctness of NodePort in SNAT mode: what a request leaves behind, why other traffic
 does not disturb it, and what the backend's reply becomes.
 */
module NodePortPath {
  import opened Net
  import opened Packet
  import opened Translation
  import opened NodePort
  import Conntrack
  import IcmpError
  import Lb
  import LbXlate
  import PortRange
  import Snat

  /** A connection through the node; `source` is the node's address and port towards the backend. */
  datatype Conn = Conn(client: Endpoint, service: Endpoint, backend: Endpoint, source: Endpoint, proto: u8, index: u16) {
    function CtKey(): Tuple {
      Tuple(client.addr, backend.addr, backend.port, client.port, proto, OUT)
    }

    function NatKey(): Tuple {
      Tuple(backend.addr, client.addr, backend.port, client.port, proto, OUT)
    }

    /** The NAT key of the backend's replies. */
    function ReplyKey(): Tuple {
      Tuple(source.addr, backend.addr, source.port, backend.port, proto, IN)
    }
  }

  // ---- packets ----

  /** A TCP or UDP packet from `src` to `dst`. */
  predicate Carries(b: Buf, f: Frame, src: Endpoint, dst: Endpoint) {
    && f.In(b) && f.l4 == f.l3 + HdrWords(b, f.l3) && Protocol(b, f.l3) == f.proto
    && Load32(b, f.l3 + SADDR) == src.addr && b.words[f.l4 + SPORT] == src.port
    && Load32(b, f.l3 + DADDR) == dst.addr && b.words[f.l4 + DPORT] == dst.port
  }

  /** Both checksums are valid. */
  ghost predicate Sound(b: Buf, f: Frame, len: u16)
    requires f.In(b)
  {
    L3Valid(b, f.l3, f.l4) && b.words[f.l3] > 0 && L4Valid(b, f, len)
  }

  lemma CarriesExtract(b: Buf, f: Frame, src: Endpoint, dst: Endpoint)
    requires Carries(b, f, src, dst)
    ensures ExtractTuple(b, f.l3) == Extracted(Tuple(dst.addr, src.addr, src.port, dst.port, f.proto, OUT), f.l4)
    ensures FlagsReadable(b, f.l4, f.proto)
  {
  }

  /** A translation replaces one end, keeps the other, the flags and the hop count, and stays sound. */
  lemma TranslatedCarries(b: Buf, b': Buf, f: Frame, ch: Change, src: Endpoint, dst: Endpoint, len: u16)
    requires Carries(b, f, src, dst) && ch.Valid() && Translated(b, b', f, ch) && Sound(b, f, len)
    requires (ch.addrOff == SADDR) == (ch.portOff == SPORT)
    ensures var e := Endpoint(ch.Addr(), ch.port);
            if ch.addrOff == SADDR then Carries(b', f, e, dst) else Carries(b', f, src, e)
    ensures Sound(b', f, len) && b'.words[f.l3 + IP_TTL] == b.words[f.l3 + IP_TTL]
    ensures Flags(b', f.l4, f.proto) == Flags(b, f.l4, f.proto)
  {
    hide L3Valid, L4Valid, FlagsOf;
    TranslatedKeepsChecksums(b, b', f, ch, len);
    TranslatedKeepsRest(b, b', f, ch);
  }

  lemma TranslatedKeepsRest(b: Buf, b': Buf, f: Frame, ch: Change)
    requires f.In(b) && ch.Valid() && Translated(b, b', f, ch)
    ensures b'.words[f.l3] == b.words[f.l3] && b'.words[f.l3 + IP_TTL] == b.words[f.l3 + IP_TTL]
    ensures f.proto == TCP ==> b'.words[f.l4 + TCP_FLAGS] == b.words[f.l4 + TCP_FLAGS]
    ensures b'.words[f.l4 + 1 - ch.portOff] == b.words[f.l4 + 1 - ch.portOff]
    ensures ch.addrOff == SADDR ==> Load32(b', f.l3 + DADDR) == Load32(b, f.l3 + DADDR)
    ensures ch.addrOff == DADDR ==> Load32(b', f.l3 + SADDR) == Load32(b, f.l3 + SADDR)
  {
  }

  lemma HopCarries(b: Buf, f: Frame, src: Endpoint, dst: Endpoint, len: u16)
    requires Carries(b, f, src, dst) && Sound(b, f, len) && b.words[f.l3 + IP_TTL] % 256 > 1
    ensures var out := LbXlate.DecTtl(b, f.l3);
            && out.ret == Ok && Carries(out.buf, f, src, dst) && Sound(out.buf, f, len)
            && out.buf.words[f.l3 + IP_TTL] == b.words[f.l3 + IP_TTL] - 1
  {
    hide L3Valid, L4Valid, LbXlate.DecTtl;
    LbXlate.DecTtlKeepsChecksums(b, f, len);
    TtlByte(b.words[f.l3 + IP_TTL]);
  }

  lemma TtlByte(w: u16)
    requires w % 256 > 1
    ensures (w - 1) / 256 == w / 256 && (w - 1) % 256 == w % 256 - 1
  {
  }

  // ---- the tables ----

  /** The flow `o` has both its NAT entries, and its port is one that the reply path looks up. */
  predicate Mapped(m: Snat.Table, o: Tuple, s: Setup) {
    o in m && Snat.FwdPaired(m, o) && PortRange.ReplyLooksUp(s.ranges, Swap16(m[o].port))
  }

  /** The connection's own entries: its forward mapping and its connection tracking entry. */
  predicate Tracked(n: Node, conn: Conn) {
    var o := conn.NatKey();
    && o in n.snat
    && n.snat[o].addr == conn.source.addr && n.snat[o].port == conn.source.port && !n.snat[o].needsCt
    && PointsTo(n.lb.ct, conn.CtKey(), conn.index) && conn.index != 0
  }

  /** What the node must remember to bring replies of the connection back. */
  predicate Established(n: Node, conn: Conn, s: Setup) {
    Tracked(n, conn) && Mapped(n.snat, conn.NatKey(), s)
  }

  // ---- source NAT ----

  lemma RangesLookedUp(s: Setup, coin: bool)
    ensures var range := PortRange.SelectRange(s.ranges, coin);
            && (forall p :: PortRange.Inside(range, p) ==> PortRange.ReplyLooksUp(s.ranges, p))
            && (s.ranges.natExt.Some? ==>
                  forall p :: PortRange.Inside(PortRange.SwapRange(s.ranges, range), p) ==> PortRange.ReplyLooksUp(s.ranges, p))
  {
  }

  /** A mapping that a request from `source` would reuse: its reverse key is its own, its port looked up. */
  predicate Clean(m: Snat.Table, o: Tuple, source: u32, s: Setup) {
    o in m && m[o].addr == source && !m[o].needsCt ==>
      Snat.Unclaimed(m, o) && PortRange.ReplyLooksUp(s.ranges, Swap16(m[o].port))
  }

  /** A successful source NAT maps the flow exactly when a mapping that it reuses is clean. */
  lemma NatRequestMaps(m: Snat.Table, o: Tuple, e: ReqEnv, s: Setup)
    requires Snat.IsFwd(o)
    ensures var out := NatRequest(m, o, e, s.ranges);
            out.ret == Ok ==>
              && out.entry.Some? && o in out.table && out.table[o] == out.entry.value
              && out.entry.value.addr == e.source && !out.entry.value.needsCt
              && (Mapped(out.table, o, s) <==> Clean(m, o, e.source, s))
  {
    hide Snat.Forward, Snat.FwdPaired, PortRange.SelectRange, PortRange.SwapRange, PortRange.ReplyLooksUp,
      PortRange.Inside, Snat.Unclaimed;
    RangesLookedUp(s, e.coin);
    var range := PortRange.SelectRange(s.ranges, e.coin);
    var t := Snat.Target(e.source, range, false);
    Snat.ForwardMakesFlow(m, o, t, e.natEnv);
    var first := Snat.Forward(m, o, t, e.natEnv);
    if first.ret == DropNatNoMapping && s.ranges.natExt.Some? {
      Snat.ForwardMakesFlow(first.table, o, t.(range := PortRange.SwapRange(s.ranges, range)), e.natRetry);
    }
  }

  /** Both tries of a request keep a mapped flow that they do not displace. */
  lemma NatRequestKeeps(m: Snat.Table, p: Tuple, e: ReqEnv, s: Setup, o: Tuple)
    requires Snat.IsFwd(p) && Snat.IsFwd(o) && Mapped(m, o, s)
    requires !Snat.Displaces(m, p, Snat.Target(e.source, PortRange.SelectRange(s.ranges, e.coin), false), o)
    ensures var m' := NatRequest(m, p, e, s.ranges).table;
            Mapped(m', o, s) && o in m && o in m' && m'[o] == m[o]
  {
    hide Snat.Forward, PortRange.SelectRange, PortRange.SwapRange, PortRange.ReplyLooksUp, Swap16;
    var range := PortRange.SelectRange(s.ranges, e.coin);
    var t := Snat.Target(e.source, range, false);
    Snat.ForwardKeepsFlow(m, p, t, e.natEnv, o);
    var first := Snat.Forward(m, p, t, e.natEnv);
    if first.ret == DropNatNoMapping && s.ranges.natExt.Some? {
      Snat.ForwardMakesFlow(m, p, t, e.natEnv);
      Snat.ForwardKeepsFlow(first.table, p, t.(range := PortRange.SwapRange(s.ranges, range)), e.natRetry, o);
    }
  }

  // ---- connection tracking ----

  /** The entry under `k` sends replies to service `r`. */
  predicate PointsTo(ct: Conntrack.Table, k: Tuple, r: u16) {
    k in ct && ct[k].nodePort && ct[k].revNatIndex == r
  }

  lemma TrackStep(ct: Conntrack.Table, k: Tuple, flags: Option<Conntrack.FlagByte>, r: u16, now: u64,
                  createFails: bool, c: Conntrack.Timeouts)
    requires k.flags == OUT
    ensures var out := TrackRequest(ct, k, flags, r, now, createFails, c);
            && (r != 0 && (out.ret == Ok || PointsTo(ct, k, r)) ==> PointsTo(out.table, k, r))
            && (forall j :: j in ct && j != k ==> j in out.table && out.table[j] == ct[j])
  {
    hide Conntrack.Touch, Conntrack.Refresh, Conntrack.Rebalances;
  }

  // ---- a request ----

  /** Destination translation of a request, with the backend's port or, if it has none, the packet's. */
  lemma DnatStep(b: Buf, f: Frame, src: Endpoint, dst: Endpoint, be: Lb.Backend, len: u16) returns (to: Endpoint)
    requires Carries(b, f, src, dst) && Sound(b, f, len) && dst.port != 0
    ensures to == Endpoint(be.addr, if be.port != 0 then be.port else dst.port)
    ensures var d := LbXlate.Dnat(b, f.proto, f.l3, f.l4, dst.addr, dst.port, be.addr, be.port, true);
            && d.ret == Ok && Carries(d.buf, f, src, to) && Sound(d.buf, f, len)
            && Flags(d.buf, f.l4, f.proto) == Flags(b, f.l4, f.proto)
            && d.buf.words[f.l3 + IP_TTL] == b.words[f.l3 + IP_TTL]
  {
    hide LbXlate.Readdress, L4Replace, ModifyPort, L3Valid, L4Valid, FlagsOf, Translated;
    to := Endpoint(be.addr, if be.port != 0 then be.port else dst.port);
    var ch := ChangeTo(DADDR, to.addr, DPORT, to.port);
    LbXlate.DnatTranslates(b, f, ch);
    var d := LbXlate.Dnat(b, f.proto, f.l3, f.l4, dst.addr, dst.port, be.addr, to.port, true);
    assert d == LbXlate.Dnat(b, f.proto, f.l3, f.l4, dst.addr, dst.port, be.addr, be.port, true);
    TranslatedCarries(b, d.buf, f, ch, src, dst, len);
  }

  /** Source NAT and the hop, on the packet to the backend. */
  lemma SendStep(n: Node, b: Buf, f: Frame, src: Endpoint, dst: Endpoint, e: ReqEnv, s: Setup, len: u16)
    returns (source: Endpoint)
    requires Carries(b, f, src, dst) && Sound(b, f, len)
    requires SendToBackend(n, b, f.l3, e, s).ret == Ok
    ensures var out := SendToBackend(n, b, f.l3, e, s);
            var o := Tuple(dst.addr, src.addr, dst.port, src.port, f.proto, OUT);
            && out.redirected && out.node == n.(snat := out.node.snat)
            && Carries(out.buf, f, source, dst) && Sound(out.buf, f, len) && source.addr == e.source
            && out.buf.words[f.l3 + IP_TTL] == b.words[f.l3 + IP_TTL] - 1
            && o in out.node.snat && out.node.snat[o].addr == source.addr && out.node.snat[o].port == source.port
            && !out.node.snat[o].needsCt
            && out.node.snat == NatRequest(n.snat, o, e, s.ranges).table
            && (Mapped(out.node.snat, o, s) <==> Clean(n.snat, o, e.source, s))
  {
    hide NatRequest, LbXlate.DecTtl, Rewrite, L3Valid, L4Valid, FlagsOf, Translated, Mapped, Clean;
    CarriesExtract(b, f, src, dst);
    var o := Tuple(dst.addr, src.addr, dst.port, src.port, f.proto, OUT);
    NatRequestMaps(n.snat, o, e, s);
    var out := NatRequest(n.snat, o, e, s.ranges);
    HopNeeded(b, f.l3);
    HopCarries(b, f, src, dst, len);
    var b1 := LbXlate.DecTtl(b, f.l3).buf;
    source := Endpoint(out.entry.value.addr, out.entry.value.port);
    var ch := ChangeTo(SADDR, source.addr, SPORT, source.port);
    var w := Rewriting(f.proto, f.l3, true, f.l4, src.addr, source.addr, SADDR, src.port, source.port, SPORT, 0);
    RewriteTranslates(b1, w, f, ch);
    TranslatedCarries(b1, Rewrite(b1, w).buf, f, ch, src, dst, len);
  }

  lemma HopNeeded(b: Buf, l3: nat)
    requires Accessible(b, l3, IP_WORDS)
    ensures LbXlate.DecTtl(b, l3).ret == Ok <==> b.words[l3 + IP_TTL] % 256 > 1
  {
  }

  /**
   A request c:cp -> v:vp that is sent on leaves as node:port -> b:bp with valid checksums. The node
   then remembers the connection exactly when a NAT mapping that the request reused was clean.
   */
  lemma RequestEstablishes(n: Node, b: Buf, f: Frame, client: Endpoint, service: Endpoint, e: ReqEnv, s: Setup, len: u16)
    returns (conn: Conn)
    requires Carries(b, f, client, service) && Sound(b, f, len)
    requires service.port != 0 && e.lb.svc.revNatIndex != 0 && e.dsr.None?
    requires Request(n, b, f.l3, e, s).redirected
    ensures conn.client == client && conn.service == service && conn.proto == f.proto
    ensures conn.index == e.lb.svc.revNatIndex && conn.source.addr == e.source
    ensures Balance(n, b, f.l3, e, s).Balanced? && Balance(n, b, f.l3, e, s).key == conn.CtKey()
    ensures var out := Request(n, b, f.l3, e, s);
            && Tracked(out.node, conn) && (Established(out.node, conn, s) <==> Clean(n.snat, conn.NatKey(), e.source, s))
            && out.node.snat == NatRequest(n.snat, conn.NatKey(), e, s.ranges).table
            && Carries(out.buf, f, conn.source, conn.backend) && Sound(out.buf, f, len)
            && out.buf.words[f.l3 + IP_TTL] == b.words[f.l3 + IP_TTL] - 1
  {
    hide LbXlate.Dnat, Lb.Local, TrackRequest, SendToBackend, L3Valid, L4Valid, FlagsOf, Mapped, Clean;
    CarriesExtract(b, f, client, service);
    var t := Tuple(service.addr, client.addr, client.port, service.port, f.proto, OUT);
    var flags := Flags(b, f.l4, f.proto);
    var local := Lb.Local(n.lb, t, flags, e.lb.(flagsReadable := true), s.timeouts);
    var be := local.choice.value.backend;
    var backend := DnatStep(b, f, client, service, be, len);
    var d := LbXlate.Dnat(b, f.proto, f.l3, f.l4, service.addr, service.port, be.addr, be.port, true);
    var k := TrackKey(t, be);
    TrackStep(local.maps.ct, k, flags, e.lb.svc.revNatIndex, e.lb.now, e.createFails, s.timeouts);
    var tracked := TrackRequest(local.maps.ct, k, flags, e.lb.svc.revNatIndex, e.lb.now, e.createFails, s.timeouts);
    var n' := n.(lb := local.maps.(ct := tracked.table));
    SentOk(n', d.buf, f.l3, e, s);
    var source := SendStep(n', d.buf, f, client, backend, e, s, len);
    conn := Conn(client, service, backend, source, f.proto, e.lb.svc.revNatIndex);
  }

  lemma SentOk(n: Node, b: Buf, l3: nat, e: ReqEnv, s: Setup)
    ensures SendToBackend(n, b, l3, e, s).redirected <==> SendToBackend(n, b, l3, e, s).ret == Ok
  {
    hide NatRequest, LbXlate.DecTtl, Rewrite;
    var x := ExtractTuple(b, l3);
    if x.Extracted? {
      NatRequestMaps(n.snat, x.t.SwapPorts(), e, s);
    }
  }

  /**
   Exactly when a well-formed request is sent on in SNAT mode: no service check turns it away, a
   remote backend is found, the entry is stored, a hop is left and a NAT mapping made.
   */
  lemma RequestSentIff(n: Node, b: Buf, f: Frame, client: Endpoint, service: Endpoint, e: ReqEnv, s: Setup, len: u16)
    requires Carries(b, f, client, service) && Sound(b, f, len) && service.port != 0 && e.dsr.None?
    ensures var t := Tuple(service.addr, client.addr, client.port, service.port, f.proto, OUT);
            var flags := Flags(b, f.l4, f.proto);
            var local := Lb.Local(n.lb, t, flags, e.lb.(flagsReadable := true), s.timeouts);
            Request(n, b, f.l3, e, s).redirected <==>
              && e.refused.None? && !e.backendLocal && !e.hostPort && local.ret == Ok && local.choice.Some?
              && var k := TrackKey(t, local.choice.value.backend);
                 && TrackRequest(local.maps.ct, k, flags, e.lb.svc.revNatIndex, e.lb.now, e.createFails, s.timeouts).ret == Ok
                 && b.words[f.l3 + IP_TTL] % 256 > 1
                 && NatRequest(n.snat, k.SwapAddrs(), e, s.ranges).ret == Ok
  {
    hide LbXlate.Dnat, Lb.Local, TrackRequest, SendToBackend, L3Valid, L4Valid, FlagsOf, NatRequest;
    CarriesExtract(b, f, client, service);
    var t := Tuple(service.addr, client.addr, client.port, service.port, f.proto, OUT);
    var flags := Flags(b, f.l4, f.proto);
    var local := Lb.Local(n.lb, t, flags, e.lb.(flagsReadable := true), s.timeouts);
    if local.ret == Ok && local.choice.Some? {
      var be := local.choice.value.backend;
      var backend := DnatStep(b, f, client, service, be, len);
      var d := LbXlate.Dnat(b, f.proto, f.l3, f.l4, service.addr, service.port, be.addr, be.port, true);
      var k := TrackKey(t, be);
      var tracked := TrackRequest(local.maps.ct, k, flags, e.lb.svc.revNatIndex, e.lb.now, e.createFails, s.timeouts);
      var n' := n.(lb := local.maps.(ct := tracked.table));
      SentOk(n', d.buf, f.l3, e, s);
      SentIff(n', d.buf, f, client, backend, e, s, len);
    }
  }

  lemma SentIff(n: Node, b: Buf, f: Frame, src: Endpoint, dst: Endpoint, e: ReqEnv, s: Setup, len: u16)
    requires Carries(b, f, src, dst) && Sound(b, f, len)
    ensures var o := Tuple(dst.addr, src.addr, dst.port, src.port, f.proto, OUT);
            SendToBackend(n, b, f.l3, e, s).ret == Ok <==>
              b.words[f.l3 + IP_TTL] % 256 > 1 && NatRequest(n.snat, o, e, s.ranges).ret == Ok
  {
    hide NatRequest, LbXlate.DecTtl, Rewrite, L3Valid, L4Valid, FlagsOf;
    CarriesExtract(b, f, src, dst);
    var o := Tuple(dst.addr, src.addr, dst.port, src.port, f.proto, OUT);
    NatRequestMaps(n.snat, o, e, s);
    HopNeeded(b, f.l3);
    var out := NatRequest(n.snat, o, e, s.ranges);
    if b.words[f.l3 + IP_TTL] % 256 > 1 && out.ret == Ok {
      HopCarries(b, f, src, dst, len);
      var w := Rewriting(f.proto, f.l3, true, f.l4, src.addr, out.entry.value.addr, SADDR,
                         src.port, out.entry.value.port, SPORT, 0);
      RewriteTranslates(LbXlate.DecTtl(b, f.l3).buf, w, f, ChangeTo(SADDR, out.entry.value.addr, SPORT, out.entry.value.port));
    }
  }

  // ---- a reply ----

  /** The connection's reverse NAT entry leads back to the client, without repair. */
  lemma NatReply(n: Node, conn: Conn, env: Snat.Env, s: Setup)
    requires Established(n, conn, s)
    ensures var r := Tuple(conn.source.addr, conn.backend.addr, conn.source.port, conn.backend.port, conn.proto, IN);
            var out := Snat.Reply(n.snat, r, env);
            && PortRange.ReplyLooksUp(s.ranges, Swap16(r.dport))
            && out.table == n.snat && out.ret == Ok && out.entry.Some?
            && out.entry.value.addr == conn.client.addr && out.entry.value.port == conn.client.port
  {
    hide Swap16, PortRange.ReplyLooksUp;
  }

  function ReplyQuery(b: Buf, f: Frame, now: u64): Conntrack.Query
    requires f.In(b)
  {
    Conntrack.Query(Ingress, NODEPORT_TYPE, Some(0), f.proto == TCP, Flags(b, f.l4, f.proto), now)
  }

  lemma CtReply(ct: Conntrack.Table, k: Tuple, r: u16, q: Conntrack.Query, c: Conntrack.Timeouts)
    requires PointsTo(ct, k, r) && r != 0 && k.flags == OUT
    requires q.dir == Ingress && q.types == NODEPORT_TYPE && q.index == Some(0)
    ensures var found := Conntrack.LazyLookup(ct, k, Conntrack.ScopeReverse, c, q);
            && PointsTo(found.table, k, r) && found.table[k] == Conntrack.Touch(ct[k], c, q)
            && (found.status == Conntrack.ReplyTo <==> !Conntrack.Reopens(ct[k], c, q))
            && (found.status == Conntrack.ReplyTo ==> found.entry.Some? && found.entry.value.revNatIndex == r)
  {
    hide Conntrack.Touch, Conntrack.Refresh;
  }

  /** The translation back to the service, and the hop. */
  lemma RevDnatStep(n: Node, b: Buf, f: Frame, conn: Conn, now: u64, s: Setup, len: u16)
    requires PointsTo(n.lb.ct, conn.CtKey(), conn.index) && conn.index != 0 && conn.proto == f.proto
    requires conn.index in s.services && s.services[conn.index] == conn.service && conn.service.port != 0
    requires Carries(b, f, conn.backend, conn.client) && Sound(b, f, len) && b.words[f.l3 + IP_TTL] % 256 > 1
    ensures var out := RevDnat(n, b, f.l3, now, s);
            && out.node.snat == n.snat && PointsTo(out.node.lb.ct, conn.CtKey(), conn.index)
            && out.node.lb.ct[conn.CtKey()] == Conntrack.Touch(n.lb.ct[conn.CtKey()], s.timeouts, ReplyQuery(b, f, now))
            && (out.redirected <==> !Conntrack.Reopens(n.lb.ct[conn.CtKey()], s.timeouts, ReplyQuery(b, f, now)))
            && (out.redirected ==> out.ret == Ok && Carries(out.buf, f, conn.service, conn.client) && Sound(out.buf, f, len)
                                   && out.buf.words[f.l3 + IP_TTL] == b.words[f.l3 + IP_TTL] - 1)
  {
    hide Conntrack.LazyLookup, Conntrack.Reopens, Conntrack.Touch, LbXlate.RevNat, LbXlate.DecTtl, L3Valid, L4Valid,
      FlagsOf, Translated;
    CarriesExtract(b, f, conn.backend, conn.client);
    CtReply(n.lb.ct, conn.CtKey(), conn.index, ReplyQuery(b, f, now), s.timeouts);
    var ch := ChangeTo(SADDR, conn.service.addr, SPORT, conn.service.port);
    LbXlate.RevNatTranslates(b, f, ch);
    var b1 := LbXlate.RevNat(b, f.proto, f.l3, f.l4, conn.backend.addr, conn.backend.port,
                             conn.service.addr, conn.service.port, true).buf;
    TranslatedCarries(b, b1, f, ch, conn.backend, conn.client, len);
    HopCarries(b1, f, conn.service, conn.client, len);
  }

  /**
   The backend's reply to the node's address and port leaves as v:vp -> c:cp with valid checksums.
   The one exception is exact: a bare SYN that finds the connection closing.
   */
  lemma ReplyReturns(n: Node, b: Buf, f: Frame, conn: Conn, e: RepEnv, s: Setup, len: u16)
    requires Established(n, conn, s) && conn.proto == f.proto
    requires conn.index in s.services && s.services[conn.index] == conn.service && conn.service.port != 0
    requires Carries(b, f, conn.backend, conn.source) && Sound(b, f, len) && b.words[f.l3 + IP_TTL] % 256 > 1
    ensures var out := Reply(n, b, f.l3, e, s);
            && Established(out.node, conn, s)
            && out.node.lb.ct[conn.CtKey()] == Conntrack.Touch(n.lb.ct[conn.CtKey()], s.timeouts, ReplyQuery(b, f, e.now))
            && (out.redirected <==> !Conntrack.Reopens(n.lb.ct[conn.CtKey()], s.timeouts, ReplyQuery(b, f, e.now)))
            && (out.redirected ==> out.ret == Ok && Carries(out.buf, f, conn.service, conn.client) && Sound(out.buf, f, len)
                                   && out.buf.words[f.l3 + IP_TTL] == b.words[f.l3 + IP_TTL] - 1)
  {
    hide Snat.Reply, Rewrite, RevDnat, L3Valid, L4Valid, FlagsOf, Translated, PortRange.ReplyLooksUp, Swap16,
      Conntrack.Reopens, Conntrack.Touch, Mapped;
    CarriesExtract(b, f, conn.backend, conn.source);
    NatReply(n, conn, e.natEnv, s);
    var ch := ChangeTo(DADDR, conn.client.addr, DPORT, conn.client.port);
    var w := Rewriting(f.proto, f.l3, true, f.l4, conn.source.addr, conn.client.addr, DADDR,
                       conn.source.port, conn.client.port, DPORT, 0);
    RewriteTranslates(b, w, f, ch);
    var b1 := Rewrite(b, w).buf;
    TranslatedCarries(b, b1, f, ch, conn.backend, conn.source, len);
    assert n.(snat := n.snat) == n;
    RevDnatStep(n, b1, f, conn, e.now, s, len);
  }

  // ---- other traffic in between ----

  /**
   Packets through the node, and whatever other programs do to its two tables: source NAT steps of
   any flow, lookups, writes and deletions, evictions.
   */
  datatype Event =
    | Req(b: Buf, l3: nat, env: ReqEnv)
    | Rep(b: Buf, l3: nat, rep: RepEnv)
    | NatForward(p: Tuple, t: Snat.Target, nat0: Snat.Env)
    | NatReverse(r: Tuple, nat1: Snat.Env)
    | NatEvict(k: Tuple)
    | CtLookup(key: Tuple, q: Conntrack.Query)
    | CtWrite(key: Tuple, entry: Conntrack.Entry)
    | CtEvict(key: Tuple)

  function Apply(n: Node, v: Event, s: Setup): Node {
    match v
    case Req(b, l3, e) => Request(n, b, l3, e, s).node
    case Rep(b, l3, e) => Reply(n, b, l3, e, s).node
    case NatForward(p, t, env) => n.(snat := Snat.Forward(n.snat, p.(flags := OUT), t, env).table)
    case NatReverse(r, env) => n.(snat := Snat.Reply(n.snat, r.(flags := IN), env).table)
    case NatEvict(k) => n.(snat := n.snat - {k})
    case CtLookup(k, q) => n.(lb := n.lb.(ct := Conntrack.TouchKey(n.lb.ct, k, s.timeouts, q)))
    case CtWrite(k, e) => n.(lb := n.lb.(ct := n.lb.ct[k := e]))
    case CtEvict(k) => n.(lb := n.lb.(ct := n.lb.ct - {k}))
  }

  /** A request's connection key and packet after balancing, if it gets that far. */
  datatype Balanced = NoBackend | Balanced(key: Tuple, buf: Buf)

  function Balance(n: Node, b: Buf, l3: nat, e: ReqEnv, s: Setup): Balanced {
    match ExtractTuple(b, l3)
    case NotExtracted(_) => NoBackend
    case Extracted(t, l4) =>
      if e.refused.Some? then NoBackend
      else
        var env := e.lb.(flagsReadable := FlagsReadable(b, l4, t.nexthdr));
        var local := Lb.Local(n.lb, t, SeenFlags(b, l4, t.nexthdr), env, s.timeouts);
        if local.ret != Ok || local.choice.None? then NoBackend
        else
          var be := local.choice.value.backend;
          Balanced(TrackKey(t, be), LbXlate.Dnat(b, t.nexthdr, l3, l4, t.daddr, t.sport, be.addr, be.port, true).buf)
  }

  /** The packet after balancing is one whose source NAT displaces the connection's mapping. */
  predicate NatDisplaces(n: Node, b: Buf, l3: nat, e: ReqEnv, s: Setup, o: Tuple)
    requires o in n.snat
  {
    var y := ExtractTuple(b, l3);
    y.Extracted?
    && Snat.Displaces(n.snat, y.t.SwapPorts(), Snat.Target(e.source, PortRange.SelectRange(s.ranges, e.coin), false), o)
  }

  /**
   The events that overwrite one of the connection's keys: a request that tracks another service under
   its connection key, a NAT step that replaces a stale mapping and deletes one of its entries, and a
   write or eviction of its keys.
   */
  predicate Overwrites(n: Node, v: Event, conn: Conn, s: Setup)
    requires Established(n, conn, s)
  {
    var o := conn.NatKey();
    match v
    case Req(b, l3, e) =>
      var x := Balance(n, b, l3, e, s);
      && x.Balanced?
      && (|| (x.key == conn.CtKey() && e.lb.svc.revNatIndex != conn.index)
          || (!e.backendLocal && e.dsr.None? && NatDisplaces(n, x.buf, l3, e, s, o)))
    case Rep(_, _, _) => false
    case NatForward(p, t, _) => Snat.Displaces(n.snat, p.(flags := OUT), t, o)
    case NatReverse(_, _) => false
    case NatEvict(k) => k == o || k == Snat.RevTuple(o, conn.source.addr, conn.source.port)
    case CtLookup(_, _) => false
    case CtWrite(k, _) => k == conn.CtKey()
    case CtEvict(k) => k == conn.CtKey()
  }

  lemma SendKeeps(n: Node, b: Buf, l3: nat, e: ReqEnv, s: Setup, conn: Conn)
    requires Established(n, conn, s) && !NatDisplaces(n, b, l3, e, s, conn.NatKey())
    ensures Established(SendToBackend(n, b, l3, e, s).node, conn, s)
  {
    hide NatRequest, LbXlate.DecTtl, Rewrite, Mapped;
    var x := ExtractTuple(b, l3);
    if x.Extracted? {
      NatRequestKeeps(n.snat, x.t.SwapPorts(), e, s, conn.NatKey());
    }
  }

  lemma RequestKeeps(n: Node, b: Buf, l3: nat, e: ReqEnv, s: Setup, conn: Conn)
    requires Established(n, conn, s) && !Overwrites(n, Req(b, l3, e), conn, s)
    ensures Established(Request(n, b, l3, e, s).node, conn, s)
  {
    hide LbXlate.Dnat, Lb.Local, TrackRequest, SendToBackend, SendWithOption, FlagsOf, Mapped, NatDisplaces;
    match ExtractTuple(b, l3)
    case NotExtracted(_) =>
    case Extracted(t, l4) =>
      if e.refused.None? {
        var flags, env := SeenFlags(b, l4, t.nexthdr), e.lb.(flagsReadable := FlagsReadable(b, l4, t.nexthdr));
        Lb.LocalFrame(n.lb, t, flags, env, s.timeouts, conn.CtKey());
        var local := Lb.Local(n.lb, t, flags, env, s.timeouts);
        if local.ret == Ok && local.choice.Some? {
          var be := local.choice.value.backend;
          var k, r := TrackKey(t, be), e.lb.svc.revNatIndex;
          TrackStep(local.maps.ct, k, flags, r, e.lb.now, e.createFails, s.timeouts);
          var tracked := TrackRequest(local.maps.ct, k, flags, r, e.lb.now, e.createFails, s.timeouts);
          var n' := n.(lb := local.maps.(ct := tracked.table));
          assert Established(n', conn, s);
          var d := LbXlate.Dnat(b, t.nexthdr, l3, l4, t.daddr, t.sport, be.addr, be.port, true);
          OptionKeepsNode(n.(lb := local.maps), d.buf, l3, e);
          if e.dsr.None? && !e.backendLocal {
            SameNat(n, n', d.buf, l3, e, s, conn.NatKey());
            SendKeeps(n', d.buf, l3, e, s, conn);
          }
        }
      }
  }

  lemma OptionKeepsNode(n: Node, b: Buf, l3: nat, e: ReqEnv)
    ensures e.dsr.Some? ==> forall v, need :: SendWithOption(n, b, l3, v, need, e.dsr.value).node == n
  {
  }

  lemma SameNat(n: Node, n': Node, b: Buf, l3: nat, e: ReqEnv, s: Setup, o: Tuple)
    requires n'.snat == n.snat && Mapped(n.snat, o, s)
    ensures NatDisplaces(n', b, l3, e, s, o) <==> NatDisplaces(n, b, l3, e, s, o)
  {
  }

  lemma RevDnatKeeps(n: Node, b: Buf, l3: nat, now: u64, s: Setup, conn: Conn)
    requires Established(n, conn, s)
    ensures Established(RevDnat(n, b, l3, now, s).node, conn, s)
  {
    hide Conntrack.Touch, Conntrack.Refresh, LbXlate.RevNat, LbXlate.DecTtl, FlagsOf, Mapped;
  }

  /** A reply of any flow only adds to the NAT table. */
  lemma NatReplyAdds(m: Snat.Table, r: Tuple, env: Snat.Env, o: Tuple, s: Setup)
    requires Mapped(m, o, s)
    ensures var m' := Snat.Reply(m, r, env).table;
            Mapped(m', o, s) && o in m && o in m' && m'[o] == m[o]
  {
    hide Swap16, PortRange.ReplyLooksUp;
  }

  lemma ReplyKeeps(n: Node, b: Buf, l3: nat, e: RepEnv, s: Setup, conn: Conn)
    requires Established(n, conn, s)
    ensures Established(Reply(n, b, l3, e, s).node, conn, s)
  {
    hide RevDnat, Rewrite, PortRange.ReplyLooksUp, Swap16, Snat.Reply, Mapped, IcmpError.TranslateError;
    match ExtractTuple(b, l3)
    case NotExtracted(_) =>
      if Accessible(b, l3, IP_WORDS) && Accessible(b, l3 + HdrWords(b, l3), 4) {
        NatReplyAdds(n.snat, Tuple(Load32(b, l3 + DADDR), Load32(b, l3 + SADDR),
                                   b.words[l3 + HdrWords(b, l3) + ICMP_ID], 0, ICMP, IN), e.natEnv, conn.NatKey(), s);
      }
    case Extracted(t, l4) =>
      var r := t.SwapPorts().(flags := IN);
      NatReplyAdds(n.snat, r, e.natEnv, conn.NatKey(), s);
      var out := Snat.Reply(n.snat, r, e.natEnv);
      if out.ret == Ok && out.entry.Some? {
        var w := Rewrite(b, Rewriting(t.nexthdr, l3, true, l4, r.daddr, out.entry.value.addr, DADDR,
                                      r.dport, out.entry.value.port, DPORT, 0));
        RevDnatKeeps(n.(snat := out.table), w.buf, l3, e.now, s, conn);
      }
  }

  lemma EventKeeps(n: Node, v: Event, s: Setup, conn: Conn)
    requires Established(n, conn, s) && !Overwrites(n, v, conn, s)
    ensures Established(Apply(n, v, s), conn, s)
  {
    hide Request, Reply, Snat.Forward, Snat.Reply, PortRange.ReplyLooksUp, Swap16, Conntrack.Touch;
    match v
    case Req(b, l3, e) => RequestKeeps(n, b, l3, e, s, conn);
    case Rep(b, l3, e) => ReplyKeeps(n, b, l3, e, s, conn);
    case NatForward(p, t, env) => Snat.ForwardKeepsFlow(n.snat, p.(flags := OUT), t, env, conn.NatKey());
    case NatReverse(r, env) => NatReplyAdds(n.snat, r.(flags := IN), env, conn.NatKey(), s);
    case NatEvict(k) =>
    case CtLookup(k, q) =>
    case CtWrite(k, e) =>
    case CtEvict(k) =>
  }

  function Run(n: Node, vs: seq<Event>, s: Setup): Node {
    if vs == [] then n else Apply(Run(n, vs[..|vs| - 1], s), vs[|vs| - 1], s)
  }

  /** No event of the run overwrites a key of the connection. */
  predicate RunSpares(n: Node, vs: seq<Event>, conn: Conn, s: Setup) {
    vs != [] ==>
      && RunSpares(n, vs[..|vs| - 1], conn, s)
      && var mid := Run(n, vs[..|vs| - 1], s);
         Established(mid, conn, s) ==> !Overwrites(mid, vs[|vs| - 1], conn, s)
  }

  /** Any traffic, including the connection's own, keeps it established unless it overwrites its keys. */
  lemma {:induction false} RunKeeps(n: Node, vs: seq<Event>, s: Setup, conn: Conn)
    requires Established(n, conn, s) && RunSpares(n, vs, conn, s)
    ensures Established(Run(n, vs, s), conn, s)
  {
    hide Established, Overwrites, Apply;
    if vs != [] {
      RunKeeps(n, vs[..|vs| - 1], s, conn);
      EventKeeps(Run(n, vs[..|vs| - 1], s), vs[|vs| - 1], s, conn);
    }
  }

  /**
   End to end: after a request c:cp -> v:vp was sent to a backend, and anything else that does not
   overwrite its keys, the backend's reply to the node leaves as v:vp -> c:cp with valid checksums,
   unless it is a bare SYN that finds the connection closing.
   */
  lemma RoundTrip(n: Node, b: Buf, f: Frame, client: Endpoint, service: Endpoint, e: ReqEnv, s: Setup, len: u16,
                  vs: seq<Event>, b2: Buf, f2: Frame, e2: RepEnv, len2: u16)
    returns (conn: Conn)
    requires Carries(b, f, client, service) && Sound(b, f, len) && service.port != 0 && e.dsr.None?
    requires e.lb.svc.revNatIndex != 0 && e.lb.svc.revNatIndex in s.services && s.services[e.lb.svc.revNatIndex] == service
    requires Request(n, b, f.l3, e, s).redirected
    ensures conn.client == client && conn.service == service && conn.proto == f.proto
    ensures var sent := Request(n, b, f.l3, e, s);
            && Carries(sent.buf, f, conn.source, conn.backend) && Sound(sent.buf, f, len)
            && (&& Clean(n.snat, conn.NatKey(), e.source, s) && RunSpares(sent.node, vs, conn, s)
                && Carries(b2, f2, conn.backend, conn.source) && f2.proto == f.proto
                && Sound(b2, f2, len2) && b2.words[f2.l3 + IP_TTL] % 256 > 1
                ==>
                var mid := Run(sent.node, vs, s);
                var back := Reply(mid, b2, f2.l3, e2, s);
                && conn.CtKey() in mid.lb.ct
                && (back.redirected <==> !Conntrack.Reopens(mid.lb.ct[conn.CtKey()], s.timeouts, ReplyQuery(b2, f2, e2.now)))
                && (back.redirected ==> && back.ret == Ok && Carries(back.buf, f2, service, client)
                                        && Sound(back.buf, f2, len2)))
  {
    hide Request, Reply, Sound, Conntrack.Reopens, Overwrites, FlagsOf, Clean, Mapped;
    conn := RequestEstablishes(n, b, f, client, service, e, s, len);
    var sent := Request(n, b, f.l3, e, s);
    if && Clean(n.snat, conn.NatKey(), e.source, s) && RunSpares(sent.node, vs, conn, s)
       && Carries(b2, f2, conn.backend, conn.source) && f2.proto == f.proto
       && Sound(b2, f2, len2) && b2.words[f2.l3 + IP_TTL] % 256 > 1
    {
      RunKeeps(sent.node, vs, s, conn);
      ReplyReturns(Run(sent.node, vs, s), b2, f2, conn, e2, s, len2);
    }
  }

  /** The exception at work: the backend closes, its FIN comes back, and its next bare SYN does not. */
  lemma SynAfterFinIsLost(n: Node, conn: Conn, b1: Buf, f1: Frame, e1: RepEnv, len1: u16,
                          b2: Buf, f2: Frame, e2: RepEnv, len2: u16, s: Setup)
    requires Established(n, conn, s) && conn.proto == TCP && f1.proto == TCP && f2.proto == TCP
    requires conn.index in s.services && s.services[conn.index] == conn.service && conn.service.port != 0
    requires Carries(b1, f1, conn.backend, conn.source) && Sound(b1, f1, len1) && b1.words[f1.l3 + IP_TTL] % 256 > 1
    requires Carries(b2, f2, conn.backend, conn.source) && Sound(b2, f2, len2) && b2.words[f2.l3 + IP_TTL] % 256 > 1
    requires Flags(b1, f1.l4, TCP) == Some({Conntrack.FIN}) && Flags(b2, f2.l4, TCP) == Some({Conntrack.SYN})
    ensures var first := Reply(n, b1, f1.l3, e1, s);
            && first.redirected && Carries(first.buf, f1, conn.service, conn.client)
            && !Reply(first.node, b2, f2.l3, e2, s).redirected
  {
    hide Reply, Sound, FlagsOf, Mapped, Conntrack.Refresh, Conntrack.UpdateTimeout;
    ReplyReturns(n, b1, f1, conn, e1, s, len1);
    ReplyReturns(Reply(n, b1, f1.l3, e1, s).node, b2, f2, conn, e2, s, len2);
  }

  // ---- the condition is exact ----

  lemma RevDnatKeepsDst(n: Node, b: Buf, f: Frame, src: Endpoint, dst: Endpoint, now: u64, s: Setup)
    requires Carries(b, f, src, dst)
    ensures var out := RevDnat(n, b, f.l3, now, s);
            out.redirected ==>
              && f.In(out.buf)
              && Load32(out.buf, f.l3 + DADDR) == dst.addr && out.buf.words[f.l4 + DPORT] == dst.port
  {
    hide Conntrack.LazyLookup, LbXlate.RevNat, FlagsOf;
    CarriesExtract(b, f, src, dst);
    forall r | r in s.services
      ensures var back := LbXlate.RevNat(b, f.proto, f.l3, f.l4, src.addr, src.port, s.services[r].addr, s.services[r].port, true);
              f.In(back.buf) && Load32(back.buf, f.l3 + DADDR) == dst.addr && back.buf.words[f.l4 + DPORT] == dst.port
    {
      LbXlate.RevNatKeepsDst(b, f, src.addr, src.port, s.services[r].addr, s.services[r].port);
    }
  }

  /** Where the NAT entry under a reply's key sends it, if the reply path looks at it. */
  lemma ReplyGoesTo(n: Node, b: Buf, f: Frame, src: Endpoint, dst: Endpoint, e: RepEnv, s: Setup, len: u16)
    requires Carries(b, f, src, dst) && Sound(b, f, len)
    ensures var r := Tuple(dst.addr, src.addr, dst.port, src.port, f.proto, IN);
            var out := Reply(n, b, f.l3, e, s);
            out.redirected ==>
              && PortRange.ReplyLooksUp(s.ranges, Swap16(dst.port)) && r in n.snat && f.In(out.buf)
              && Load32(out.buf, f.l3 + DADDR) == n.snat[r].addr && out.buf.words[f.l4 + DPORT] == n.snat[r].port
              && !(n.snat[r].needsCt && e.natEnv.ctFails)
  {
    hide RevDnat, Rewrite, PortRange.ReplyLooksUp, Swap16, L3Valid, L4Valid, FlagsOf, Translated;
    CarriesExtract(b, f, src, dst);
    var r := Tuple(dst.addr, src.addr, dst.port, src.port, f.proto, IN);
    var out := Snat.Reply(n.snat, r, e.natEnv);
    if out.ret == Ok && out.entry.Some? {
      var to := Endpoint(out.entry.value.addr, out.entry.value.port);
      var w := Rewriting(f.proto, f.l3, true, f.l4, dst.addr, to.addr, DADDR, dst.port, to.port, DPORT, 0);
      var ch := ChangeTo(DADDR, to.addr, DPORT, to.port);
      RewriteTranslates(b, w, f, ch);
      TranslatedCarries(b, Rewrite(b, w).buf, f, ch, src, dst, len);
      RevDnatKeepsDst(n.(snat := out.table), Rewrite(b, w).buf, f, src, to, e.now, s);
    }
  }

  /** The reply key of the connection leads back to its client. */
  predicate LeadsBack(m: Snat.Table, conn: Conn, s: Setup) {
    var r := conn.ReplyKey();
    && PortRange.ReplyLooksUp(s.ranges, Swap16(conn.source.port)) && r in m
    && m[r].addr == conn.client.addr && m[r].port == conn.client.port
  }

  /** Established means that the reply key leads back without asking for connection tracking. */
  lemma EstablishedIff(n: Node, conn: Conn, s: Setup)
    requires Tracked(n, conn)
    ensures Established(n, conn, s) <==> LeadsBack(n.snat, conn, s) && !n.snat[conn.ReplyKey()].needsCt
  {
    hide Swap16, PortRange.ReplyLooksUp;
  }

  /**
   Exactly when the reply of a tracked connection reaches its client as v:vp -> c:cp: its key leads back,
   the connection tracking that the entry may ask for works, and it is no bare SYN that finds the
   connection closing.
   */
  lemma ReplyReachesClientIff(n: Node, conn: Conn, b: Buf, f: Frame, e: RepEnv, s: Setup, len: u16)
    requires Tracked(n, conn) && f.proto == conn.proto
    requires conn.index in s.services && s.services[conn.index] == conn.service && conn.service.port != 0
    requires Carries(b, f, conn.backend, conn.source) && Sound(b, f, len) && b.words[f.l3 + IP_TTL] % 256 > 1
    ensures var out := Reply(n, b, f.l3, e, s);
            (out.redirected && Carries(out.buf, f, conn.service, conn.client)) <==>
              && LeadsBack(n.snat, conn, s) && !(n.snat[conn.ReplyKey()].needsCt && e.natEnv.ctFails)
              && !Conntrack.Reopens(n.lb.ct[conn.CtKey()], s.timeouts, ReplyQuery(b, f, e.now))
  {
    hide Reply, PortRange.ReplyLooksUp, Swap16, L3Valid, L4Valid, Conntrack.Reopens, FlagsOf;
    ReplyGoesTo(n, b, f, conn.backend, conn.source, e, s, len);
    if LeadsBack(n.snat, conn, s) && !(n.snat[conn.ReplyKey()].needsCt && e.natEnv.ctFails) {
      LeadsBackReply(n, conn, b, f, e, s, len);
    }
  }

  /** The path of a reply whose key leads back; at most a missing forward entry is put back on the way. */
  lemma LeadsBackReply(n: Node, conn: Conn, b: Buf, f: Frame, e: RepEnv, s: Setup, len: u16)
    requires Tracked(n, conn) && f.proto == conn.proto
    requires LeadsBack(n.snat, conn, s) && !(n.snat[conn.ReplyKey()].needsCt && e.natEnv.ctFails)
    requires conn.index in s.services && s.services[conn.index] == conn.service && conn.service.port != 0
    requires Carries(b, f, conn.backend, conn.source) && Sound(b, f, len) && b.words[f.l3 + IP_TTL] % 256 > 1
    ensures var out := Reply(n, b, f.l3, e, s);
            && (out.redirected <==> !Conntrack.Reopens(n.lb.ct[conn.CtKey()], s.timeouts, ReplyQuery(b, f, e.now)))
            && (out.redirected ==> Carries(out.buf, f, conn.service, conn.client))
  {
    hide Rewrite, RevDnat, L3Valid, L4Valid, FlagsOf, Translated, PortRange.ReplyLooksUp, Swap16, Conntrack.Reopens,
      Conntrack.Touch;
    CarriesExtract(b, f, conn.backend, conn.source);
    var ch := ChangeTo(DADDR, conn.client.addr, DPORT, conn.client.port);
    var w := Rewriting(f.proto, f.l3, true, f.l4, conn.source.addr, conn.client.addr, DADDR,
                       conn.source.port, conn.client.port, DPORT, 0);
    RewriteTranslates(b, w, f, ch);
    var b1 := Rewrite(b, w).buf;
    TranslatedCarries(b, b1, f, ch, conn.backend, conn.source, len);
    assert n.(snat := n.snat) == n;
    RevDnatStep(n, b1, f, conn, e.now, s, len);
  }

  // ---- when mappings are clean ----

  predicate HasPorts(k: Tuple) {
    k.nexthdr == TCP || k.nexthdr == UDP
  }

  /** Every flow holds its reverse key, and TCP and UDP flows have ports that the reply path looks up. */
  ghost predicate NatInv(m: Snat.Table, s: Setup) {
    && Snat.Backed(m)
    && forall k :: k in m && Snat.IsFwd(k) && HasPorts(k) ==> PortRange.ReplyLooksUp(s.ranges, Swap16(m[k].port))
  }

  /**
   Source NAT of TCP and UDP uses looked-up ports; echo ids and other protocols may use any. No
   reverse mapping is evicted under a live flow.
   */
  ghost predicate Regular(v: Event, s: Setup) {
    match v
    case NatForward(p, t, _) => HasPorts(p) ==> forall q :: PortRange.Inside(t.range, q) ==> PortRange.ReplyLooksUp(s.ranges, q)
    case NatReverse(r, _) => HasPorts(r) ==> PortRange.ReplyLooksUp(s.ranges, Swap16(r.dport))
    case NatEvict(k) => !Snat.IsRev(k)
    case _ => true
  }

  lemma ForwardKeepsInv(m: Snat.Table, p: Tuple, t: Snat.Target, env: Snat.Env, s: Setup)
    requires NatInv(m, s) && Snat.IsFwd(p)
    requires HasPorts(p) ==> forall q :: PortRange.Inside(t.range, q) ==> PortRange.ReplyLooksUp(s.ranges, q)
    ensures NatInv(Snat.Forward(m, p, t, env).table, s)
  {
    hide Snat.Forward, PortRange.ReplyLooksUp, PortRange.Inside, Swap16;
    Snat.ForwardKeepsBacked(m, p, t, env);
    Snat.ForwardFrame(m, p, t, env);
    Snat.ForwardMakesFlow(m, p, t, env);
  }

  lemma ReplyKeepsInv(m: Snat.Table, r: Tuple, env: Snat.Env, s: Setup)
    requires NatInv(m, s) && Snat.IsRev(r) && (HasPorts(r) ==> PortRange.ReplyLooksUp(s.ranges, Swap16(r.dport)))
    ensures NatInv(Snat.Reply(m, r, env).table, s)
  {
    hide PortRange.ReplyLooksUp, Swap16, Snat.Backed;
    Snat.ReplyKeepsBacked(m, r, env);
  }

  lemma NatRequestKeepsInv(m: Snat.Table, p: Tuple, e: ReqEnv, s: Setup)
    requires NatInv(m, s) && Snat.IsFwd(p)
    ensures NatInv(NatRequest(m, p, e, s.ranges).table, s)
  {
    hide Snat.Forward, PortRange.SelectRange, PortRange.SwapRange, PortRange.ReplyLooksUp, PortRange.Inside, NatInv;
    RangesLookedUp(s, e.coin);
    var range := PortRange.SelectRange(s.ranges, e.coin);
    var t := Snat.Target(e.source, range, false);
    ForwardKeepsInv(m, p, t, e.natEnv, s);
    var first := Snat.Forward(m, p, t, e.natEnv);
    if s.ranges.natExt.Some? {
      ForwardKeepsInv(first.table, p, t.(range := PortRange.SwapRange(s.ranges, range)), e.natRetry, s);
    }
  }

  lemma EventKeepsInv(n: Node, v: Event, s: Setup)
    requires NatInv(n.snat, s) && Regular(v, s)
    ensures NatInv(Apply(n, v, s).snat, s)
  {
    hide NatInv, Request, Reply, Snat.Forward, Snat.Reply, PortRange.ReplyLooksUp, PortRange.Inside, Swap16, Conntrack.Touch;
    match v
    case Req(b, l3, e) => RequestKeepsInv(n, b, l3, e, s);
    case Rep(b, l3, e) => AnyReplyKeepsInv(n, b, l3, e, s);
    case NatForward(p, t, env) => ForwardKeepsInv(n.snat, p.(flags := OUT), t, env, s);
    case NatReverse(r, env) => ReplyKeepsInv(n.snat, r.(flags := IN), env, s);
    case NatEvict(k) => EvictKeepsInv(n.snat, k, s);
    case CtLookup(k, q) =>
    case CtWrite(k, e) =>
    case CtEvict(k) =>
  }

  lemma EvictKeepsInv(m: Snat.Table, k: Tuple, s: Setup)
    requires NatInv(m, s) && !Snat.IsRev(k)
    ensures NatInv(m - {k}, s)
  {
    hide PortRange.ReplyLooksUp, Swap16;
  }

  lemma RequestKeepsInv(n: Node, b: Buf, l3: nat, e: ReqEnv, s: Setup)
    requires NatInv(n.snat, s)
    ensures NatInv(Request(n, b, l3, e, s).node.snat, s)
  {
    hide LbXlate.Dnat, Lb.Local, TrackRequest, Rewrite, NatInv, FlagsOf, LbXlate.DecTtl, NatRequest;
    var x := Balance(n, b, l3, e, s);
    if x.Balanced? && ExtractTuple(x.buf, l3).Extracted? {
      NatRequestKeepsInv(n.snat, ExtractTuple(x.buf, l3).t.SwapPorts(), e, s);
    }
  }

  lemma AnyReplyKeepsInv(n: Node, b: Buf, l3: nat, e: RepEnv, s: Setup)
    requires NatInv(n.snat, s)
    ensures NatInv(Reply(n, b, l3, e, s).node.snat, s)
  {
    hide Rewrite, Swap16, PortRange.ReplyLooksUp, Snat.Reply, NatInv, FlagsOf, Conntrack.LazyLookup, LbXlate.RevNat,
      LbXlate.DecTtl, IcmpError.TranslateError;
    match ExtractTuple(b, l3)
    case NotExtracted(_) =>
      if Accessible(b, l3, IP_WORDS) && Accessible(b, l3 + HdrWords(b, l3), 4) {
        ReplyKeepsInv(n.snat, Tuple(Load32(b, l3 + DADDR), Load32(b, l3 + SADDR),
                                    b.words[l3 + HdrWords(b, l3) + ICMP_ID], 0, ICMP, IN), e.natEnv, s);
      }
    case Extracted(t, l4) =>
      var r := t.SwapPorts().(flags := IN);
      if PortRange.ReplyLooksUp(s.ranges, Swap16(r.dport)) {
        ReplyKeepsInv(n.snat, r, e.natEnv, s);
      }
  }

  /** Every mapping of a TCP or UDP flow is clean in every state that regular events lead to. */
  lemma {:induction false} RegularRunIsClean(n: Node, vs: seq<Event>, s: Setup, o: Tuple, source: u32)
    requires NatInv(n.snat, s) && forall v :: v in vs ==> Regular(v, s)
    ensures NatInv(Run(n, vs, s).snat, s)
    ensures Snat.IsFwd(o) && HasPorts(o) ==> Clean(Run(n, vs, s).snat, o, source, s)
  {
    hide Regular, Apply, PortRange.ReplyLooksUp, Swap16;
    if vs != [] {
      RegularRunIsClean(n, vs[..|vs| - 1], s, o, source);
      EventKeepsInv(Run(n, vs[..|vs| - 1], s), vs[|vs| - 1], s);
    }
  }

  /** The tuple of a request after its destination was translated. */
  lemma BalancedTuple(b: Buf, f: Frame, src: Endpoint, dst: Endpoint, be: Lb.Backend, len: u16) returns (to: Endpoint)
    requires Carries(b, f, src, dst) && Sound(b, f, len) && dst.port != 0
    ensures to == Endpoint(be.addr, if be.port != 0 then be.port else dst.port)
    ensures var d := LbXlate.Dnat(b, f.proto, f.l3, f.l4, dst.addr, dst.port, be.addr, be.port, true);
            ExtractTuple(d.buf, f.l3) == Extracted(Tuple(to.addr, src.addr, src.port, to.port, f.proto, OUT), f.l4)
  {
    hide LbXlate.Dnat, FlagsOf, L3Valid, L4Valid;
    to := DnatStep(b, f, src, dst, be, len);
    CarriesExtract(LbXlate.Dnat(b, f.proto, f.l3, f.l4, dst.addr, dst.port, be.addr, be.port, true).buf, f, src, to);
  }

  /** In such a state a request of another client never overwrites the connection. */
  lemma OtherClientSpares(n: Node, b: Buf, f: Frame, src: Endpoint, dst: Endpoint, e: ReqEnv, s: Setup, conn: Conn, len: u16)
    requires Carries(b, f, src, dst) && Sound(b, f, len) && dst.port != 0
    requires src != conn.client || f.proto != conn.proto
    requires Established(n, conn, s) && Snat.Backed(n.snat)
    ensures !Overwrites(n, Req(b, f.l3, e), conn, s)
  {
    hide LbXlate.Dnat, Lb.Local, FlagsOf, L3Valid, L4Valid, Mapped;
    CarriesExtract(b, f, src, dst);
    var t := Tuple(dst.addr, src.addr, src.port, dst.port, f.proto, OUT);
    var local := Lb.Local(n.lb, t, Flags(b, f.l4, f.proto), e.lb.(flagsReadable := true), s.timeouts);
    if local.ret == Ok && local.choice.Some? {
      var be := local.choice.value.backend;
      var to := BalancedTuple(b, f, src, dst, be, len);
      Snat.OthersDoNotDisplace(n.snat, Tuple(to.addr, src.addr, to.port, src.port, f.proto, OUT),
                               Snat.Target(e.source, PortRange.SelectRange(s.ranges, e.coin), false), conn.NatKey());
    }
  }

  // ---- a run that ends with a mapping that is not clean ----

  /** A packet with its frame and L4 length. */
  datatype Wire = Wire(b: Buf, f: Frame, len: u16)

  /** A well-formed packet that can still be forwarded. */
  ghost predicate Travels(w: Wire, src: Endpoint, dst: Endpoint, proto: u8) {
    && Carries(w.b, w.f, src, dst) && Sound(w.b, w.f, w.len) && w.f.proto == proto
    && w.b.words[w.f.l3 + IP_TTL] % 256 > 1
  }

  /** A service with one remote backend, in SNAT mode, while no helper fails. */
  predicate Direct(e: ReqEnv, id: u32) {
    && e.refused.None? && !e.backendLocal && !e.hostPort && e.dsr.None? && !e.createFails
    && Lb.Sole(e.lb.(flagsReadable := true), id) && e.lb.svc.revNatIndex != 0 && Snat.Smooth(e.natEnv)
  }

  function BackendOf(e: ReqEnv, id: u32, service: Endpoint): Endpoint
    requires Direct(e, id)
  {
    var be := e.lb.backends[id];
    Endpoint(be.addr, if be.port != 0 then be.port else service.port)
  }

  function Flow(backend: Endpoint, client: Endpoint, proto: u8): Tuple {
    Tuple(backend.addr, client.addr, backend.port, client.port, proto, OUT)
  }

  /** Such a request is sent to the backend whenever source NAT succeeds. */
  lemma DirectRequest(n: Node, w: Wire, client: Endpoint, service: Endpoint, e: ReqEnv, s: Setup, id: u32)
    returns (conn: Conn)
    requires Travels(w, client, service, w.f.proto) && service.port != 0 && Direct(e, id)
    requires NatRequest(n.snat, Flow(BackendOf(e, id, service), client, w.f.proto), e, s.ranges).ret == Ok
    ensures conn.client == client && conn.service == service && conn.proto == w.f.proto && conn.index == e.lb.svc.revNatIndex
    ensures conn.backend == BackendOf(e, id, service) && conn.source.addr == e.source
    ensures var out := Request(n, w.b, w.f.l3, e, s);
            && out.redirected && Carries(out.buf, w.f, conn.source, conn.backend)
            && Tracked(out.node, conn) && (Established(out.node, conn, s) <==> Clean(n.snat, conn.NatKey(), e.source, s))
            && out.node.snat == NatRequest(n.snat, conn.NatKey(), e, s.ranges).table
    ensures var x := Balance(n, w.b, w.f.l3, e, s);
            && x.Balanced? && x.key == conn.CtKey()
            && ExtractTuple(x.buf, w.f.l3) == Extracted(conn.NatKey().SwapPorts(), w.f.l4)
  {
    hide LbXlate.Dnat, Lb.Local, NatRequest, Request, Sound, FlagsOf, Mapped, Clean, Snat.Smooth;
    CarriesExtract(w.b, w.f, client, service);
    var t := Tuple(service.addr, client.addr, client.port, service.port, w.f.proto, OUT);
    var flags, env := Flags(w.b, w.f.l4, w.f.proto), e.lb.(flagsReadable := true);
    Lb.SoleIsChosen(n.lb, t, flags, env, s.timeouts, id);
    var be := e.lb.backends[id];
    var to := BalancedTuple(w.b, w.f, client, service, be, w.len);
    TracksWithoutFailure(Lb.Local(n.lb, t, flags, env, s.timeouts).maps.ct, TrackKey(t, be), flags, e.lb.svc.revNatIndex,
                         e.lb.now, s.timeouts);
    RequestSentIff(n, w.b, w.f, client, service, e, s, w.len);
    conn := RequestEstablishes(n, w.b, w.f, client, service, e, s, w.len);
  }

  lemma TracksWithoutFailure(ct: Conntrack.Table, k: Tuple, flags: Option<Conntrack.FlagByte>, r: u16, now: u64,
                             c: Conntrack.Timeouts)
    ensures TrackRequest(ct, k, flags, r, now, false, c).ret == Ok
  {
    hide Conntrack.LazyLookup, Conntrack.NewEntry;
  }

  /** Source NAT of a flow whose source port is in range and free towards the backend keeps that port. */
  lemma NatKeepsPort(m: Snat.Table, o: Tuple, e: ReqEnv, s: Setup)
    requires Snat.Smooth(e.natEnv) && PortRange.Inside(PortRange.SelectRange(s.ranges, e.coin), Swap16(o.sport))
    requires o !in m && Snat.RevTuple(o, e.source, o.sport) !in m
    ensures var r, now := Snat.RevTuple(o, e.source, o.sport), e.natEnv.now;
            var out := NatRequest(m, o, e, s.ranges);
            && out.ret == Ok
            && out.table == m[r := Snat.NatEntry(now, false, o.saddr, o.sport)][o := Snat.NatEntry(now, false, e.source, o.sport)]
  {
    hide Snat.Forward, PortRange.SelectRange, PortRange.Inside, Swap16;
    Snat.FirstPacketKeepsPort(m, o, Snat.Target(e.source, PortRange.SelectRange(s.ranges, e.coin), false), e.natEnv);
  }

  /** A mapping that agrees with the target is reused as it is when something is under its reverse key. */
  lemma NatReuses(m: Snat.Table, o: Tuple, e: ReqEnv, s: Setup)
    requires Snat.Smooth(e.natEnv) && o in m && m[o].addr == e.source && !m[o].needsCt
    requires Snat.RevTuple(o, m[o].addr, m[o].port) in m
    ensures NatRequest(m, o, e, s.ranges).ret == Ok && NatRequest(m, o, e, s.ranges).table == m
  {
    hide PortRange.SelectRange;
  }

  /** The NAT table that the first client's evicted flow leaves behind, and the second client's on top of it. */
  function Stranded(o: Tuple, e: ReqEnv): Snat.Table {
    map[o := Snat.NatEntry(e.natEnv.now, false, e.source, o.sport)]
  }

  function Claimed(o1: Tuple, o2: Tuple, e: ReqEnv): Snat.Table {
    Stranded(o1, e)[Snat.RevTuple(o2, e.source, o2.sport) := Snat.NatEntry(e.natEnv.now, false, o2.saddr, o2.sport)]
                   [o2 := Snat.NatEntry(e.natEnv.now, false, e.source, o2.sport)]
  }

  /** A client's source port can be kept. */
  predicate Keepable(client: Endpoint, e: ReqEnv, s: Setup) {
    Snat.Smooth(e.natEnv) && PortRange.Inside(PortRange.SelectRange(s.ranges, e.coin), Swap16(client.port))
  }

  lemma FirstClient(n: Node, w: Wire, first: Endpoint, service: Endpoint, e: ReqEnv, s: Setup, id: u32)
    requires n.snat == map[] && Travels(w, first, service, w.f.proto) && service.port != 0
    requires Direct(e, id) && Keepable(first, e, s)
    ensures var backend, source := BackendOf(e, id, service), Endpoint(e.source, first.port);
            var out := Request(n, w.b, w.f.l3, e, s);
            var o := Flow(backend, first, w.f.proto);
            && out.redirected && Carries(out.buf, w.f, source, backend)
            && Apply(out.node, NatEvict(Snat.RevTuple(o, e.source, o.sport)), s).snat == Stranded(o, e)
  {
    hide Request, NatRequest, Sound, Direct, Mapped, Clean, Balance, PortRange.SelectRange, PortRange.Inside, Swap16;
    var o := Flow(BackendOf(e, id, service), first, w.f.proto);
    NatKeepsPort(map[], o, e, s);
    var conn := DirectRequest(n, w, first, service, e, s, id);
    var r := Snat.RevTuple(o, e.source, o.sport);
    assert Request(n, w.b, w.f.l3, e, s).node.snat - {r} == Stranded(o, e);
  }

  lemma SecondClient(n: Node, w: Wire, second: Endpoint, service: Endpoint, e: ReqEnv, s: Setup, id: u32, o1: Tuple)
    returns (conn: Conn)
    requires Travels(w, second, service, w.f.proto) && service.port != 0 && Direct(e, id) && Keepable(second, e, s)
    requires n.snat == Stranded(o1, e) && Snat.IsFwd(o1) && o1 != Flow(BackendOf(e, id, service), second, w.f.proto)
    ensures var out := Request(n, w.b, w.f.l3, e, s);
            && conn == Conn(second, service, BackendOf(e, id, service), Endpoint(e.source, second.port), w.f.proto,
                            e.lb.svc.revNatIndex)
            && out.redirected && Carries(out.buf, w.f, conn.source, conn.backend)
            && out.node.snat == Claimed(o1, conn.NatKey(), e) && Established(out.node, conn, s)
  {
    hide Request, NatRequest, Sound, Direct, PortRange.SelectRange, PortRange.Inside, Swap16, Mapped;
    NatKeepsPort(n.snat, Flow(BackendOf(e, id, service), second, w.f.proto), e, s);
    conn := DirectRequest(n, w, second, service, e, s, id);
  }

  /** The first client's mapping is reused, and the second client's connection stays established. */
  lemma FirstClientAgain(n: Node, w: Wire, first: Endpoint, service: Endpoint, e: ReqEnv, s: Setup, id: u32, conn: Conn)
    requires Travels(w, first, service, w.f.proto) && service.port != 0 && Direct(e, id) && Snat.Smooth(e.natEnv)
    requires conn.backend == BackendOf(e, id, service) && conn.proto == w.f.proto && Established(n, conn, s)
    requires first.port == conn.client.port && first.addr != conn.client.addr
    requires n.snat == Claimed(Flow(conn.backend, first, w.f.proto), conn.NatKey(), e)
    ensures var out := Request(n, w.b, w.f.l3, e, s);
            && out.redirected && Carries(out.buf, w.f, Endpoint(e.source, first.port), conn.backend)
            && Established(out.node, conn, s)
  {
    hide Request, NatRequest, Sound, Direct, PortRange.SelectRange, Mapped, Clean, Balance, FlagsOf;
    var o := Flow(conn.backend, first, w.f.proto);
    NatReuses(n.snat, o, e, s);
    var again := DirectRequest(n, w, first, service, e, s, id);
    RequestKeeps(n, w.b, w.f.l3, e, s, conn);
  }

  /**
   The node's reply key is evicted and a second client with the same source port is given it. The first
   client's next request still leaves from the same address and port, and the reply goes to the second.
   */
  lemma EvictedKeyIsMisdelivered(n: Node, first: Endpoint, second: Endpoint, service: Endpoint, e: ReqEnv, s: Setup, id: u32,
                                 w1: Wire, w2: Wire, w3: Wire, reply: Wire, e4: RepEnv)
    requires n.snat == map[] && first.port == second.port && first.addr != second.addr && service.port != 0
    requires Direct(e, id) && Keepable(first, e, s)
    requires e.lb.svc.revNatIndex in s.services && s.services[e.lb.svc.revNatIndex] == service
    requires var proto := w1.f.proto;
             && Travels(w1, first, service, proto) && Travels(w2, second, service, proto) && Travels(w3, first, service, proto)
             && Travels(reply, BackendOf(e, id, service), Endpoint(e.source, first.port), proto)
             && ReplyQuery(reply.b, reply.f, e4.now).Action() != Conntrack.Create
    ensures var backend, source := BackendOf(e, id, service), Endpoint(e.source, first.port);
            var r := Tuple(source.addr, backend.addr, source.port, backend.port, w1.f.proto, IN);
            var sent1 := Request(n, w1.b, w1.f.l3, e, s);
            var sent2 := Request(Apply(sent1.node, NatEvict(r), s), w2.b, w2.f.l3, e, s);
            var sent3 := Request(sent2.node, w3.b, w3.f.l3, e, s);
            var back := Reply(sent3.node, reply.b, reply.f.l3, e4, s);
            && sent1.redirected && Carries(sent1.buf, w1.f, source, backend)
            && sent2.redirected && Carries(sent2.buf, w2.f, source, backend)
            && sent3.redirected && Carries(sent3.buf, w3.f, source, backend)
            && back.redirected && Carries(back.buf, reply.f, service, second)
  {
    hide Request, Reply, Sound, Direct, Keepable, Snat.Smooth, Established, Stranded, Claimed, FlagsOf;
    var o1 := Flow(BackendOf(e, id, service), first, w1.f.proto);
    FirstClient(n, w1, first, service, e, s, id);
    var n1 := Apply(Request(n, w1.b, w1.f.l3, e, s).node, NatEvict(Snat.RevTuple(o1, e.source, o1.sport)), s);
    SamePort(first, second, e, s);
    var conn := SecondClient(n1, w2, second, service, e, s, id, o1);
    var n2 := Request(n1, w2.b, w2.f.l3, e, s).node;
    FirstClientAgain(n2, w3, first, service, e, s, id, conn);
    ReplyReturns(Request(n2, w3.b, w3.f.l3, e, s).node, reply.b, reply.f, conn, e4, s, reply.len);
  }

  lemma SamePort(first: Endpoint, second: Endpoint, e: ReqEnv, s: Setup)
    requires Keepable(first, e, s) && first.port == second.port
    ensures Keepable(second, e, s) && Snat.Smooth(e.natEnv)
  {
  }
}
