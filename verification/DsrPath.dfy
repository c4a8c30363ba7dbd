/**
 End-to-end correctness of NodePort in DSR mode: the load balancer's node puts the service address into
 the request, the backend's node learns it, and the backend's reply leaves with it.
 */
module DsrPath {
  import opened Net
  import opened Packet
  import opened Translation
  import opened NodePortPath
  import Checksum
  import Conntrack
  import Dsr
  import DsrOption
  import Lb
  import LbXlate
  import NodePort

  // ---- the packet with the option ----

  /** Where the headers are once the option is in. */
  function Moved(f: Frame): Frame {
    f.(l4 := f.l4 + DsrOption.OPT_WORDS)
  }

  /** Words behind the fixed header read the same, further on. */
  lemma TailWord(b: Buf, b': Buf, l3: nat, i: nat)
    requires l3 + IP_WORDS <= i < |b.words| && |b'.words| == |b.words| + DsrOption.OPT_WORDS
    requires b'.words[l3 + IP_WORDS + DsrOption.OPT_WORDS..] == b.words[l3 + IP_WORDS..]
    ensures b'.words[i + DsrOption.OPT_WORDS] == b.words[i]
    ensures b'.words[i + DsrOption.OPT_WORDS..] == b.words[i..]
  {
    var j := i - (l3 + IP_WORDS);
    assert b'.words[i + DsrOption.OPT_WORDS..] == b'.words[l3 + IP_WORDS + DsrOption.OPT_WORDS..][j..];
    assert b.words[i..] == b.words[l3 + IP_WORDS..][j..];
    assert b'.words[i + DsrOption.OPT_WORDS..][0] == b.words[i..][0];
  }

  lemma AddrWords(b: Buf, b': Buf, l3: nat)
    requires Accessible(b, l3, IP_WORDS) && Accessible(b', l3, IP_WORDS)
    requires b'.words[l3 + SADDR..l3 + IP_WORDS] == b.words[l3 + SADDR..l3 + IP_WORDS]
    ensures Load32(b', l3 + SADDR) == Load32(b, l3 + SADDR) && Load32(b', l3 + DADDR) == Load32(b, l3 + DADDR)
  {
    var s, s' := b.words[l3 + SADDR..l3 + IP_WORDS], b'.words[l3 + SADDR..l3 + IP_WORDS];
    assert s'[0] == s[0] && s'[1] == s[1] && s'[2] == s[2] && s'[3] == s[3];
  }

  /** `b'` is `b` with four more words behind the fixed header, and the same ends and tail. */
  predicate Stretched(b: Buf, b': Buf, l3: nat) {
    && Accessible(b, l3, IP_WORDS) && b'.len == b.len + DsrOption.OPT_LEN
    && HdrWords(b', l3) == HdrWords(b, l3) + DsrOption.OPT_WORDS
    && b'.words[l3 + IP_TTL] == b.words[l3 + IP_TTL]
    && b'.words[l3 + SADDR..l3 + IP_WORDS] == b.words[l3 + SADDR..l3 + IP_WORDS]
    && b'.words[l3 + IP_WORDS + DsrOption.OPT_WORDS..] == b.words[l3 + IP_WORDS..]
  }

  lemma StretchedCarries(b: Buf, b': Buf, f: Frame, src: Endpoint, dst: Endpoint)
    requires Carries(b, f, src, dst) && Stretched(b, b', f.l3)
    ensures Carries(b', Moved(f), src, dst)
    ensures NodePort.Flags(b', Moved(f).l4, f.proto) == NodePort.Flags(b, f.l4, f.proto)
  {
    hide Load32, NodePort.FlagsOf, HdrWords, Stretched;
    StretchedHeader(b, b', f);
    StretchedWord(b, b', f.l3, f.l4);
    StretchedWord(b, b', f.l3, f.l4 + 1);
    if f.proto == TCP {
      StretchedWord(b, b', f.l3, f.l4 + NodePort.TCP_FLAGS);
    }
  }

  lemma StretchedHeader(b: Buf, b': Buf, f: Frame)
    requires f.In(b) && Stretched(b, b', f.l3)
    ensures Moved(f).In(b') && Protocol(b', f.l3) == Protocol(b, f.l3)
    ensures HdrWords(b', f.l3) == HdrWords(b, f.l3) + DsrOption.OPT_WORDS
    ensures Load32(b', f.l3 + SADDR) == Load32(b, f.l3 + SADDR) && Load32(b', f.l3 + DADDR) == Load32(b, f.l3 + DADDR)
  {
    hide Load32, HdrWords;
    AddrWords(b, b', f.l3);
  }

  lemma StretchedWord(b: Buf, b': Buf, l3: nat, i: nat)
    requires Stretched(b, b', l3) && l3 + IP_WORDS <= i < |b.words|
    ensures i + DsrOption.OPT_WORDS < |b'.words| && b'.words[i + DsrOption.OPT_WORDS] == b.words[i]
  {
    hide HdrWords;
    TailWord(b, b', l3, i);
  }

  lemma StretchedL4(b: Buf, b': Buf, f: Frame, len: u16)
    requires f.In(b) && Stretched(b, b', f.l3) && L4Valid(b, f, len)
    ensures L4Valid(b', Moved(f), len)
  {
    hide Checksum.Verifies, HdrWords, Stretched;
    StretchedHeader(b, b', f);
    StretchedTail(b, b', f.l3, f.l4);
    StretchedWord(b, b', f.l3, f.Ck());
  }

  lemma StretchedTail(b: Buf, b': Buf, l3: nat, i: nat)
    requires Stretched(b, b', l3) && l3 + IP_WORDS <= i < |b.words|
    ensures i + DsrOption.OPT_WORDS < |b'.words| && b'.words[i + DsrOption.OPT_WORDS..] == b.words[i..]
    ensures b'.words[l3 + SADDR..l3 + IP_WORDS] == b.words[l3 + SADDR..l3 + IP_WORDS]
  {
    hide HdrWords;
    TailWord(b, b', l3, i);
  }

  /** The option changes neither ends nor flags nor hop count, and both checksums stay valid. */
  lemma OptionCarries(b: Buf, f: Frame, src: Endpoint, dst: Endpoint, v: Endpoint, len: u16)
    requires Carries(b, f, src, dst) && Sound(b, f, len) && b.words[f.l3] % 16 <= 13
    ensures var out := DsrOption.SetOption(b, f.l3, v.addr, v.port, true, false, false);
            && out.ret == Ok && Carries(out.buf, Moved(f), src, dst) && Sound(out.buf, Moved(f), len)
            && NodePort.Flags(out.buf, Moved(f).l4, f.proto) == NodePort.Flags(b, f.l4, f.proto)
            && out.buf.words[f.l3 + IP_TTL] == b.words[f.l3 + IP_TTL]
            && DsrOption.Extract(out.buf, f.l3) == DsrOption.Info(v.addr, v.port)
  {
    hide DsrOption.SetOption, DsrOption.Extract, NodePort.Flags, L3Valid, L4Valid, Load32, Stretched;
    var b' := DsrOption.SetOption(b, f.l3, v.addr, v.port, true, false, false).buf;
    OptionStretches(b, f, v);
    StretchedCarries(b, b', f, src, dst);
    StretchedL4(b, b', f, len);
  }

  lemma OptionStretches(b: Buf, f: Frame, v: Endpoint)
    requires f.In(b) && f.l4 == f.l3 + HdrWords(b, f.l3) && b.words[f.l3] % 16 <= 13 && L3Valid(b, f.l3, f.l4)
    ensures var out := DsrOption.SetOption(b, f.l3, v.addr, v.port, true, false, false);
            && out.ret == Ok && Stretched(b, out.buf, f.l3)
            && DsrOption.Extract(out.buf, f.l3) == DsrOption.Info(v.addr, v.port)
            && out.buf.words[f.l3] > 0 && out.buf.words[f.l3 + IP_TTL] == b.words[f.l3 + IP_TTL]
            && L3Valid(out.buf, f.l3, f.l4 + DsrOption.OPT_WORDS)
  {
    hide DsrOption.SetOption, DsrOption.Extract, Swap16, Checksum.Verifies;
    DsrOption.OptionReadBack(b, f.l3, v.addr, v.port);
    DsrOption.InsertKeepsHeader(b, f.l3, v.addr, v.port);
  }

  // ---- the load balancer's node ----

  lemma HopKeepsOption(b: Buf, f: Frame)
    requires f.In(b)
    ensures var b' := LbXlate.DecTtl(b, f.l3).buf;
            && DsrOption.Extract(b', f.l3) == DsrOption.Extract(b, f.l3)
            && NodePort.FlagsReadable(b, f.l4, f.proto) && NodePort.FlagsReadable(b', f.l4, f.proto)
            && NodePort.Flags(b', f.l4, f.proto) == NodePort.Flags(b, f.l4, f.proto)
  {
    hide NodePort.FlagsOf, Swap16;
    var b' := LbXlate.DecTtl(b, f.l3).buf;
    if Accessible(b, f.l3 + IP_WORDS, DsrOption.OPT_WORDS) {
      assert b'.words[f.l3 + IP_WORDS..f.l3 + IP_WORDS + DsrOption.OPT_WORDS]
          == b.words[f.l3 + IP_WORDS..f.l3 + IP_WORDS + DsrOption.OPT_WORDS];
    }
  }

  /** The option and the hop, on the packet to the backend. */
  lemma OptionSent(n: NodePort.Node, b: Buf, f: Frame, src: Endpoint, dst: Endpoint, v: Endpoint, d: NodePort.DsrEnv, len: u16)
    requires Carries(b, f, src, dst) && Sound(b, f, len)
    requires NodePort.SendWithOption(n, b, f.l3, v, true, d).redirected
    ensures var out := NodePort.SendWithOption(n, b, f.l3, v, true, d);
            && out.node == n && Carries(out.buf, Moved(f), src, dst) && Sound(out.buf, Moved(f), len)
            && NodePort.Flags(out.buf, Moved(f).l4, f.proto) == NodePort.Flags(b, f.l4, f.proto)
            && DsrOption.Extract(out.buf, f.l3) == DsrOption.Info(v.addr, v.port)
            && out.buf.words[f.l3 + IP_TTL] == b.words[f.l3 + IP_TTL] - 1
  {
    hide NodePort.FlagsOf, L3Valid, L4Valid, LbXlate.DecTtl, DsrOption.Extract, DsrOption.SetOption, Load32;
    OptionFits(b, f.l3, v, d);
    OptionCarries(b, f, src, dst, v, len);
    var b1 := DsrOption.SetOption(b, f.l3, v.addr, v.port, true, false, false).buf;
    HopNeeded(b1, f.l3);
    HopCarries(b1, Moved(f), src, dst, len);
    HopKeepsOption(b1, Moved(f));
  }

  lemma OptionFits(b: Buf, l3: nat, v: Endpoint, d: NodePort.DsrEnv)
    requires Accessible(b, l3, IP_WORDS) && DsrOption.SetOption(b, l3, v.addr, v.port, true, d.tooBig, d.noRoom).ret == Ok
    ensures !d.tooBig && !d.noRoom && b.words[l3] % 16 <= 13
  {
  }

  /** The request is one that carries DSR info: UDP, a SYN, or the first packet to a new backend. */
  predicate CarriesInfo(n: NodePort.Node, b: Buf, f: Frame, client: Endpoint, service: Endpoint, e: NodePort.ReqEnv,
                        s: NodePort.Setup)
    requires f.In(b)
  {
    var t := Tuple(service.addr, client.addr, client.port, service.port, f.proto, OUT);
    var flags, env := NodePort.Flags(b, f.l4, f.proto), e.lb.(flagsReadable := true);
    var local := Lb.Local(n.lb, t, flags, env, s.timeouts);
    && local.choice.Some?
    && NodePort.NeedsDsrInfo(f.proto, NodePort.SynMarked(t, flags, env), local.choice.value.isNew)
  }

  /** Such a packet c:cp -> v:vp that is sent on leaves as c:cp -> b:bp and carries v:vp. */
  lemma RequestCarriesService(n: NodePort.Node, b: Buf, f: Frame, client: Endpoint, service: Endpoint,
                              e: NodePort.ReqEnv, s: NodePort.Setup, len: u16)
    returns (backend: Endpoint)
    requires Carries(b, f, client, service) && Sound(b, f, len) && service.port != 0 && e.dsr.Some?
    requires CarriesInfo(n, b, f, client, service, e, s)
    requires NodePort.Request(n, b, f.l3, e, s).redirected
    ensures var out := NodePort.Request(n, b, f.l3, e, s);
            && out.node.snat == n.snat && Carries(out.buf, Moved(f), client, backend) && Sound(out.buf, Moved(f), len)
            && NodePort.Flags(out.buf, Moved(f).l4, f.proto) == NodePort.Flags(b, f.l4, f.proto)
            && DsrOption.Extract(out.buf, f.l3) == DsrOption.Info(service.addr, service.port)
            && out.buf.words[f.l3 + IP_TTL] == b.words[f.l3 + IP_TTL] - 1
  {
    hide LbXlate.Dnat, Lb.Local, NodePort.TrackRequest, NodePort.SendToBackend, NodePort.SendWithOption, L3Valid, L4Valid,
      NodePort.FlagsOf, DsrOption.Extract, Load32;
    CarriesExtract(b, f, client, service);
    var t := Tuple(service.addr, client.addr, client.port, service.port, f.proto, OUT);
    var flags := NodePort.Flags(b, f.l4, f.proto);
    var local := Lb.Local(n.lb, t, flags, e.lb.(flagsReadable := true), s.timeouts);
    var be := local.choice.value.backend;
    backend := DnatStep(b, f, client, service, be, len);
    var d := LbXlate.Dnat(b, f.proto, f.l3, f.l4, service.addr, service.port, be.addr, be.port, true);
    OptionSent(n.(lb := local.maps), d.buf, f, client, backend, service, e.dsr.value, len);
  }

  // ---- the backend's node ----

  /** The node reads from the packet what the load balancer's node put in. */
  lemma ArrivalReads(b: Buf, f: Frame, src: Endpoint, dst: Endpoint, v: Endpoint, createFails: bool, now: u64)
    requires Carries(b, f, src, dst) && DsrOption.Extract(b, f.l3) == DsrOption.Info(v.addr, v.port)
    ensures Dsr.ReadPacket(b, f.l3, createFails, now)
         == Dsr.Read(Dsr.Segment(Dsr.Flow(src.addr, src.port, dst.addr, dst.port, f.proto), Some(v),
                                 NodePort.Flags(b, f.l4, f.proto), createFails, now))
  {
    hide NodePort.FlagsOf, DsrOption.Extract, Load32;
    CarriesExtract(b, f, src, dst);
  }

  /** After the arrival and anything that does not disturb the flow, the node knows the service. */
  lemma ArrivalIsLearned(m: Conntrack.Table, b: Buf, f: Frame, flow: Dsr.Flow, v: Endpoint, now: u64,
                         later: seq<Dsr.Event>, c: Conntrack.Timeouts)
    requires Carries(b, f, Endpoint(flow.client, flow.clientPort), Endpoint(flow.backend, flow.backendPort))
    requires f.proto == flow.proto && v.port != 0 && DsrOption.Extract(b, f.l3) == DsrOption.Info(v.addr, v.port)
    requires Dsr.Takes(m, flow, v)
    requires forall e :: e in later ==> !Dsr.Disturbs(e, flow)
    ensures Dsr.Tracks(Dsr.Run(Dsr.ReceivePacket(m, b, f.l3, false, now, c).table, later, c), flow, Some(v))
  {
    hide Dsr.ReceiveSegment, Dsr.ReadPacket, Dsr.Run, Dsr.Disturbs, Dsr.Tracks, Carries, NodePort.FlagsOf, DsrOption.Extract;
    ArrivalReads(b, f, Endpoint(flow.client, flow.clientPort), Endpoint(flow.backend, flow.backendPort), v, false, now);
    Dsr.InfoIsLearnedIff(m, Dsr.ReadPacket(b, f.l3, false, now).s, c);
    Dsr.UndisturbedTracks(Dsr.ReceivePacket(m, b, f.l3, false, now, c).table, flow, Some(v), later, c);
  }

  lemma TrackedReplyFound(m: Conntrack.Table, k: Tuple, q: Conntrack.Query, c: Conntrack.Timeouts)
    requires k in m && m[k].dsr && k.flags == OUT && q.dir == Ingress && q.types == Dsr.REV_TYPES
    ensures var found := Conntrack.LazyLookup(m, k, Conntrack.ScopeReverse, c, q);
            && (found.status == Conntrack.ReplyTo <==> !Conntrack.Reopens(m[k], c, q))
            && found.table == m[k := Conntrack.Touch(m[k], c, q)]
  {
    hide Conntrack.Touch;
  }

  function ReplyQuery(b: Buf, f: Frame, now: u64): Conntrack.Query
    requires f.In(b)
  {
    Dsr.ReplyQuery(f.proto == TCP, NodePort.Flags(b, f.l4, f.proto), now)
  }

  /** A reply of a flow that the node tracks leaves as v:vp -> c:cp, unless it is a bare SYN that finds it closing. */
  lemma TrackedReplyReturns(m: Conntrack.Table, flow: Dsr.Flow, v: Endpoint, b: Buf, f: Frame,
                            services: map<u16, Endpoint>, legacy: Option<Endpoint>, now: u64, c: Conntrack.Timeouts, len: u16)
    requires Dsr.Tracks(m, flow, Some(v)) && v.port != 0 && f.proto == flow.proto
    requires Carries(b, f, Endpoint(flow.backend, flow.backendPort), Endpoint(flow.client, flow.clientPort)) && Sound(b, f, len)
    ensures var out := Dsr.TranslateReply(m, b, f.l3, services, legacy, Ok, now, c);
            && flow.ReplyTuple() in m && Dsr.Tracks(out.table, flow, Some(v))
            && out.table == m[flow.ReplyTuple() := Conntrack.Touch(m[flow.ReplyTuple()], c, ReplyQuery(b, f, now))]
            && (out.translated <==> !Conntrack.Reopens(m[flow.ReplyTuple()], c, ReplyQuery(b, f, now)))
            && (out.translated ==> && out.ret == Ok && Sound(out.buf, f, len)
                                   && Carries(out.buf, f, v, Endpoint(flow.client, flow.clientPort)))
  {
    hide Conntrack.LazyLookup, Conntrack.Reopens, Conntrack.Touch, LbXlate.RevNat, L3Valid, L4Valid, NodePort.FlagsOf, Translated, Load32;
    var src, dst := Endpoint(flow.backend, flow.backendPort), Endpoint(flow.client, flow.clientPort);
    CarriesExtract(b, f, src, dst);
    TrackedReplyFound(m, flow.ReplyTuple(), ReplyQuery(b, f, now), c);
    var ch := ChangeTo(SADDR, v.addr, SPORT, v.port);
    LbXlate.RevNatTranslates(b, f, ch);
    var b' := LbXlate.RevNat(b, f.proto, f.l3, f.l4, src.addr, src.port, v.addr, v.port, true).buf;
    TranslatedCarries(b, b', f, ch, src, dst, len);
  }

  /** The exception at work: the backend's FIN leaves as v:vp -> c:cp, and its next bare SYN does not. */
  lemma SynAfterFinIsUntranslated(m: Conntrack.Table, flow: Dsr.Flow, v: Endpoint, b1: Buf, f1: Frame, len1: u16,
                                  b2: Buf, f2: Frame, len2: u16, services: map<u16, Endpoint>, legacy: Option<Endpoint>,
                                  now1: u64, now2: u64, c: Conntrack.Timeouts)
    requires Dsr.Tracks(m, flow, Some(v)) && v.port != 0 && flow.proto == TCP && f1.proto == TCP && f2.proto == TCP
    requires Carries(b1, f1, Endpoint(flow.backend, flow.backendPort), Endpoint(flow.client, flow.clientPort))
    requires Carries(b2, f2, Endpoint(flow.backend, flow.backendPort), Endpoint(flow.client, flow.clientPort))
    requires Sound(b1, f1, len1) && Sound(b2, f2, len2)
    requires NodePort.Flags(b1, f1.l4, TCP) == Some({Conntrack.FIN}) && NodePort.Flags(b2, f2.l4, TCP) == Some({Conntrack.SYN})
    ensures var first := Dsr.TranslateReply(m, b1, f1.l3, services, legacy, Ok, now1, c);
            && first.translated && Carries(first.buf, f1, v, Endpoint(flow.client, flow.clientPort))
            && !Dsr.TranslateReply(first.table, b2, f2.l3, services, legacy, Ok, now2, c).translated
  {
    hide Dsr.TranslateReply, Sound, Carries, NodePort.FlagsOf, Conntrack.Refresh, Conntrack.UpdateTimeout;
    TrackedReplyReturns(m, flow, v, b1, f1, services, legacy, now1, c, len1);
    var m1 := Dsr.TranslateReply(m, b1, f1.l3, services, legacy, Ok, now1, c).table;
    TrackedReplyReturns(m1, flow, v, b2, f2, services, legacy, now2, c, len2);
  }

  /**
   Across the two nodes: a packet c:cp -> v:vp that carries DSR info leaves the load balancer's node for a
   backend. Whatever the backend's node has in its table, and whatever happens there afterwards short of
   new info, a bare SYN, a write or an eviction for the flow, the backend's reply leaves as v:vp -> c:cp with
   valid checksums, unless it is a bare SYN that finds the connection closing.
   */
  lemma ServiceAddressCrossesNodes(n: NodePort.Node, b: Buf, f: Frame, client: Endpoint, service: Endpoint,
                                   e: NodePort.ReqEnv, s: NodePort.Setup, len: u16,
                                   m0: Conntrack.Table, now: u64, later: seq<Dsr.Event>, c: Conntrack.Timeouts,
                                   b2: Buf, f2: Frame, services: map<u16, Endpoint>, legacy: Option<Endpoint>,
                                   now2: u64, len2: u16)
    returns (flow: Dsr.Flow)
    requires Carries(b, f, client, service) && Sound(b, f, len) && service.port != 0 && e.dsr.Some?
    requires CarriesInfo(n, b, f, client, service, e, s)
    requires NodePort.Request(n, b, f.l3, e, s).redirected
    ensures flow.client == client.addr && flow.clientPort == client.port && flow.proto == f.proto
    ensures var backend := Endpoint(flow.backend, flow.backendPort);
            var sent := NodePort.Request(n, b, f.l3, e, s).buf;
            && Carries(sent, Moved(f), client, backend) && Sound(sent, Moved(f), len)
            && (&& Dsr.Takes(m0, flow, service)
                && (forall v :: v in later ==> !Dsr.Disturbs(v, flow))
                && Carries(b2, f2, backend, client) && f2.proto == f.proto && Sound(b2, f2, len2)
                ==>
                var m := Dsr.Run(Dsr.ReceivePacket(m0, sent, f.l3, false, now, c).table, later, c);
                var out := Dsr.TranslateReply(m, b2, f2.l3, services, legacy, Ok, now2, c);
                && flow.ReplyTuple() in m
                && (out.translated <==> !Conntrack.Reopens(m[flow.ReplyTuple()], c, ReplyQuery(b2, f2, now2)))
                && (out.translated ==> && out.ret == Ok && Carries(out.buf, f2, service, client)
                                       && Sound(out.buf, f2, len2)))
  {
    hide NodePort.Request, Dsr.TranslateReply, Dsr.ReceivePacket, Dsr.Run, Dsr.Tracks, Dsr.Disturbs, Sound, Conntrack.Reopens,
      NodePort.FlagsOf, DsrOption.Extract, CarriesInfo;
    var backend := RequestCarriesService(n, b, f, client, service, e, s, len);
    flow := Dsr.Flow(client.addr, client.port, backend.addr, backend.port, f.proto);
    var sent := NodePort.Request(n, b, f.l3, e, s).buf;
    if && Dsr.Takes(m0, flow, service)
       && (forall v :: v in later ==> !Dsr.Disturbs(v, flow))
       && Carries(b2, f2, backend, client) && f2.proto == f.proto && Sound(b2, f2, len2)
    {
      ArrivalIsLearned(m0, sent, Moved(f), flow, service, now, later, c);
      var m := Dsr.Run(Dsr.ReceivePacket(m0, sent, f.l3, false, now, c).table, later, c);
      TrackedReplyReturns(m, flow, service, b2, f2, services, legacy, now2, c, len2);
    }
  }
}
