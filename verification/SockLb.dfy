/**
 The socket-level load balancer of bpf/bpf_sock.c: connect and sendmsg translate a service address
 to a backend and remember it per socket; recvmsg and getpeername translate back. Session affinity is
 by network namespace. IPv6 sockets with a v4-mapped address take the IPv4 path.
 */
module SockLb {
  import opened Net
  import opened Nat46x64
  import Lb

  const UDPLITE: u8 := 136
  const LOOPBACK: u32 := 0x0100007f

  datatype Svc = Svc(
    count: u16, revNatIndex: u16, nodePort: bool, hostPort: bool, externalIp: bool, loopback: bool,
    localRedirect: bool, to6: bool, l7: bool, l7Port: u16, l7Punt: bool, localPolicy: bool,
    affinity: bool, affinityTimeout: u32)

  datatype Key = Key(addr: u32, port: u16, proto: u8)

  /** What the IP cache knows about an address. */
  datatype Identity = Identity(host: bool, remoteNode: bool, remoteCluster: bool)

  /** The service tables and configuration, fixed during a run; NodePort bounds are in host byte order. */
  datatype Tables = Tables(
    services: map<Key, Svc>, endpoints: map<u32, Identity>, nodeportMin: u16, nodeportMax: u16,
    hostOnly: bool, noEndpointsRoutable: bool, redirectSkips: set<(u64, Endpoint)>)

  /** A socket keeps its protocol and network namespace for life. */
  datatype Sock = Sock(cookie: u64, netns: u64, hostns: bool, proto: u8)

  predicate ProtoEnabled(proto: u8) {
    proto == TCP || proto == UDP || proto == UDPLITE
  }

  predicate IsLoopback(addr: u32) {
    addr % 256 == 127
  }

  // ---- service lookup ----

  predicate InNodePortRange(t: Tables, port: u16) {
    t.nodeportMin <= Swap16(port) <= t.nodeportMax
  }

  /** sock4_wildcard_lookup_full: node addresses fall back to the entry with address 0. */
  function WildcardLookup(t: Tables, k: Key, hostns: bool): Option<Svc> {
    var allowed :=
      || (hostns && IsLoopback(k.addr))
      || (k.addr in t.endpoints
          && (t.endpoints[k.addr].host
              || (InNodePortRange(t, k.port) && t.endpoints[k.addr].remoteNode && !t.endpoints[k.addr].remoteCluster)));
    var w := k.(addr := 0);
    if !allowed || w !in t.services then None
    else
      var svc := t.services[w];
      if InNodePortRange(t, k.port) then if svc.nodePort then Some(svc) else None
      else if svc.hostPort && (!svc.loopback || IsLoopback(k.addr)) then Some(svc)
      else None
  }

  function LookupService(t: Tables, s: Sock, front: Endpoint): Option<Svc> {
    var k := Key(front.addr, front.port, s.proto);
    if k in t.services then Some(t.services[k]) else WildcardLookup(t, k, s.hostns)
  }

  predicate SkipsXlate(t: Tables, svc: Svc, addr: u32) {
    || svc.to6
    || ((svc.externalIp || (svc.hostPort && !IsLoopback(addr))) && !(addr in t.endpoints && t.endpoints[addr].host))
  }

  // ---- the reverse table ----

  datatype RevKey = RevKey(cookie: u64, backend: Endpoint)

  datatype RevVal = RevVal(front: Endpoint, index: u16)

  type RevTable = map<RevKey, RevVal>

  /** Negative return codes, and success. */
  datatype Err = Done | NoEntry | NotSupported | HostUnreachable | NotPermitted | NoMemory | NotFound

  /** The two maps that calls change. */
  datatype Maps = Maps(revsk: RevTable, affinity: Lb.Affinity)

  datatype Outcome = Outcome(maps: Maps, err: Err, dst: Endpoint)

  /** What becomes of a translation: stay, fail, go to a given backend, or to one of the service's. */
  datatype Plan = Stay | Fail(err: Err) | GoTo(backend: Endpoint, index: u16) | Pick(svc: Svc)

  function Translate(t: Tables, s: Sock, dst: Endpoint, udpOnly: bool): (p: Plan)
    ensures p.Pick? ==> p.svc.count > 0
  {
    if t.hostOnly && !s.hostns then Fail(NoEntry)
    else if !udpOnly && !ProtoEnabled(s.proto) then Fail(NotSupported)
    else
      match LookupService(t, s, dst)
      case None => Fail(NoEntry)
      case Some(svc) =>
        if svc.count == 0 && !svc.l7 then
          if t.noEndpointsRoutable || svc.localPolicy then Fail(HostUnreachable) else Stay
        else if svc.l7Punt then Stay
        else if SkipsXlate(t, svc, dst.addr) then Fail(NotPermitted)
        else if svc.localRedirect && (s.netns, dst) in t.redirectSkips then Fail(NoEntry)
        else if svc.l7 then
          if s.hostns then GoTo(Endpoint(LOOPBACK, svc.l7Port), svc.revNatIndex) else Stay
        else Pick(svc)
  }

  /** The service's slots and backends at the time of a call, the slot selector and the clock. */
  datatype Pool = Pool(slots: map<u16, u32>, backends: map<u32, Endpoint>, matches: set<(u16, u32)>, rand: u64, now: u64)

  function LbSvc(svc: Svc): Lb.Svc {
    Lb.Svc(svc.count, svc.revNatIndex, svc.affinity, svc.affinityTimeout, svc.l7Punt)
  }

  datatype Selected = Selected(affinity: Lb.Affinity, id: Option<u32>)

  /** The namespace's remembered backend while it exists, or a slot's, which is remembered. */
  function Select(a: Lb.Affinity, svc: Svc, netns: u64, p: Pool): (r: Selected)
    requires svc.count > 0
    ensures r.id.Some? ==> r.id.value in p.backends
  {
    var client := Lb.ByNetns(netns);
    var recalled := if svc.affinity then Lb.Recall(a, LbSvc(svc), p.matches, p.now, client) else Lb.Remembered(a, 0);
    if recalled.id != 0 && recalled.id in p.backends then Selected(recalled.affinity, Some(recalled.id))
    else
      var slot := Lb.RandomSlot(p.rand, svc.count);
      if slot !in p.slots || p.slots[slot] !in p.backends then Selected(recalled.affinity, None)
      else Selected(Lb.Remember(recalled.affinity, LbSvc(svc), p.now, client, p.slots[slot]), Some(p.slots[slot]))
  }

  /** The plan with its backend picked, and the affinity map after that. */
  datatype Resolved = Resolved(affinity: Lb.Affinity, plan: Plan)

  function Resolve(a: Lb.Affinity, t: Tables, s: Sock, dst: Endpoint, udpOnly: bool, p: Pool): (r: Resolved)
    ensures !r.plan.Pick?
  {
    match Translate(t, s, dst, udpOnly)
    case Pick(svc) =>
      var sel := Select(a, svc, s.netns, p);
      if sel.id.None? then Resolved(sel.affinity, Fail(HostUnreachable))
      else Resolved(sel.affinity, GoTo(p.backends[sel.id.value], svc.revNatIndex))
    case plan => Resolved(a, plan)
  }

  /** __sock4_xlate_fwd */
  function Forward(m: Maps, t: Tables, s: Sock, dst: Endpoint, udpOnly: bool, p: Pool, updateFails: bool): Outcome {
    var r := Resolve(m.affinity, t, s, dst, udpOnly, p);
    var m' := m.(affinity := r.affinity);
    match r.plan
    case Stay => Outcome(m', Done, dst)
    case Fail(err) => Outcome(m', err, dst)
    case GoTo(backend, index) =>
      var k, v := RevKey(s.cookie, backend), RevVal(dst, index);
      if k in m.revsk && m.revsk[k] == v then Outcome(m', Done, backend)
      else if updateFails then Outcome(m', NoMemory, dst)
      else Outcome(m'.(revsk := m.revsk[k := v]), Done, backend)
  }

  /** The stored frontend still names the service that was translated. */
  predicate Current(t: Tables, s: Sock, v: RevVal) {
    var svc := LookupService(t, s, v.front);
    svc.Some? && svc.value.revNatIndex == v.index && !(svc.value.count == 0 && !svc.value.l7)
  }

  /** __sock4_xlate_rev; an entry that became stale is deleted. */
  function Reverse(m: Maps, t: Tables, s: Sock, addr: Endpoint): Outcome {
    var k := RevKey(s.cookie, addr);
    if k !in m.revsk then Outcome(m, NoEntry, addr)
    else if Current(t, s, m.revsk[k]) then Outcome(m, Done, m.revsk[k].front)
    else Outcome(m.(revsk := m.revsk - {k}), NotFound, addr)
  }

  /** sock4_delete_revnat on release, for the address the socket is connected to. */
  function Release(m: Maps, cookie: u64, dst: Endpoint): Maps {
    m.(revsk := m.revsk - {RevKey(cookie, dst)})
  }

  // ---- IPv6 sockets ----

  datatype Endpoint6 = Endpoint6(addr: Addr6, port: u16)

  datatype Outcome6 = Outcome6(maps: Maps, err: Err, dst: Endpoint6)

  function Mapped(e: Endpoint): Endpoint6 {
    Endpoint6(MappedV6(e.addr), e.port)
  }

  function Lift(o: Outcome): Outcome6 {
    Outcome6(o.maps, o.err, Mapped(o.dst))
  }

  /** __sock6_xlate_fwd when no IPv6 service matches. */
  function Forward6(m: Maps, t: Tables, s: Sock, dst: Endpoint6,
                    udpOnly: bool, p: Pool, updateFails: bool): Outcome6 {
    if t.hostOnly && !s.hostns then Outcome6(m, NoEntry, dst)
    else if !udpOnly && !ProtoEnabled(s.proto) then Outcome6(m, NotSupported, dst)
    else if !IsMapped(dst.addr) then Outcome6(m, NoEntry, dst)
    else
      var out := Forward(m, t, s, Endpoint(V4Of(dst.addr), dst.port), udpOnly, p, updateFails);
      if out.err != Done then Outcome6(out.maps, out.err, dst)
      else Outcome6(out.maps, Done, Endpoint6(MappedV6(out.dst.addr), out.dst.port))
  }

  /** __sock6_xlate_rev when the IPv6 reverse table has no entry. */
  function Reverse6(m: Maps, t: Tables, s: Sock, addr: Endpoint6): Outcome6 {
    if !IsMapped(addr.addr) then Outcome6(m, NoEntry, addr)
    else
      var out := Reverse(m, t, s, Endpoint(V4Of(addr.addr), addr.port));
      if out.err != Done then Outcome6(out.maps, out.err, addr)
      else Outcome6(out.maps, Done, Endpoint6(MappedV6(out.dst.addr), out.dst.port))
  }

  /** cil_sock_release for an IPv6 socket: a mapped address is released in the IPv4 table. */
  function Release6(m: Maps, cookie: u64, dst: Endpoint6): Maps {
    if IsMapped(dst.addr) then Release(m, cookie, Endpoint(V4Of(dst.addr), dst.port)) else m
  }

  // ---- the imperative form ----

  class SocketLb {
    var revsk: RevTable
    const balancer: Lb.Balancer

    constructor ()
      ensures fresh(balancer) && Contents() == Maps(map[], map[])
    {
      revsk := map[];
      balancer := new Lb.Balancer();
    }

    function Contents(): Maps
      reads this, balancer
    {
      Maps(revsk, balancer.affinity)
    }

    /** sock4_update_revnat: an equal entry is not written again. */
    method UpdateRevNat(cookie: u64, backend: Endpoint, front: Endpoint, index: u16, fails: bool) returns (ok: bool)
      modifies this
      ensures var k, v := RevKey(cookie, backend), RevVal(front, index);
              var same := k in old(revsk) && old(revsk)[k] == v;
              && (ok <==> same || !fails)
              && revsk == if !same && !fails then old(revsk)[k := v] else old(revsk)
    {
      var key, val := RevKey(cookie, backend), RevVal(front, index);
      if key !in revsk || revsk[key] != val {
        if fails {
          return false;
        }
        revsk := revsk[key := val];
      }
      return true;
    }

    method SelectBackend(svc: Svc, netns: u64, p: Pool) returns (id: Option<u32>)
      requires svc.count > 0
      modifies balancer
      ensures Selected(balancer.affinity, id) == Select(old(balancer.affinity), svc, netns, p)
    {
      hide Lb.Recall;
      var client := Lb.ByNetns(netns);
      var backendId := 0;
      if svc.affinity {
        backendId := balancer.RecallBackend(LbSvc(svc), p.matches, p.now, client);
        if backendId != 0 && backendId !in p.backends {
          backendId := 0;
        }
      }
      if backendId == 0 {
        var slot := p.rand % svc.count + 1;
        if slot !in p.slots {
          return None;
        }
        backendId := p.slots[slot];
        if backendId !in p.backends {
          return None;
        }
        balancer.affinity := Lb.Remember(balancer.affinity, LbSvc(svc), p.now, client, backendId);
      }
      return Some(backendId);
    }

    method XlateFwd(t: Tables, s: Sock, dst: Endpoint, udpOnly: bool, p: Pool, updateFails: bool)
      returns (err: Err, user: Endpoint)
      modifies this, balancer
      ensures Outcome(Contents(), err, user) == Forward(old(Contents()), t, s, dst, udpOnly, p, updateFails)
    {
      hide LookupService, SkipsXlate, Select;
      user := dst;
      if t.hostOnly && !s.hostns {
        return NoEntry, dst;
      }
      if !udpOnly && !ProtoEnabled(s.proto) {
        return NotSupported, dst;
      }
      var found := LookupService(t, s, dst);
      if found.None? {
        return NoEntry, dst;
      }
      var svc := found.value;
      if svc.count == 0 && !svc.l7 {
        if t.noEndpointsRoutable || svc.localPolicy {
          return HostUnreachable, dst;
        }
        return Done, dst;
      }
      if svc.l7Punt {
        return Done, dst;
      }
      if SkipsXlate(t, svc, dst.addr) {
        return NotPermitted, dst;
      }
      if svc.localRedirect && (s.netns, dst) in t.redirectSkips {
        return NoEntry, dst;
      }
      var backend := Endpoint(LOOPBACK, svc.l7Port);
      if svc.l7 {
        if !s.hostns {
          return Done, dst;
        }
      } else {
        var id := SelectBackend(svc, s.netns, p);
        if id.None? {
          return HostUnreachable, dst;
        }
        backend := p.backends[id.value];
      }
      var ok := UpdateRevNat(s.cookie, backend, dst, svc.revNatIndex, updateFails);
      if !ok {
        return NoMemory, dst;
      }
      return Done, backend;
    }

    method XlateRev(t: Tables, s: Sock, addr: Endpoint) returns (err: Err, user: Endpoint)
      modifies this
      ensures Outcome(Contents(), err, user) == Reverse(old(Contents()), t, s, addr)
    {
      hide LookupService;
      var key := RevKey(s.cookie, addr);
      if key !in revsk {
        return NoEntry, addr;
      }
      var val := revsk[key];
      var svc := LookupService(t, s, val.front);
      if svc.None? || svc.value.revNatIndex != val.index || (svc.value.count == 0 && !svc.value.l7) {
        revsk := revsk - {key};
        return NotFound, addr;
      }
      return Done, val.front;
    }

    method XlateFwd6(t: Tables, s: Sock, dst: Endpoint6, udpOnly: bool, p: Pool, updateFails: bool)
      returns (err: Err, user: Endpoint6)
      modifies this, balancer
      ensures Outcome6(Contents(), err, user) == Forward6(old(Contents()), t, s, dst, udpOnly, p, updateFails)
    {
      hide Forward;
      user := dst;
      if t.hostOnly && !s.hostns {
        return NoEntry, dst;
      }
      if !udpOnly && !ProtoEnabled(s.proto) {
        return NotSupported, dst;
      }
      if !IsMapped(dst.addr) {
        return NoEntry, dst;
      }
      var fake;
      err, fake := XlateFwd(t, s, Endpoint(V4Of(dst.addr), dst.port), udpOnly, p, updateFails);
      if err == Done {
        user := Endpoint6(MappedV6(fake.addr), fake.port);
      }
    }

    method XlateRev6(t: Tables, s: Sock, addr: Endpoint6) returns (err: Err, user: Endpoint6)
      modifies this
      ensures Outcome6(Contents(), err, user) == Reverse6(old(Contents()), t, s, addr)
    {
      hide Reverse;
      user := addr;
      if !IsMapped(addr.addr) {
        return NoEntry, addr;
      }
      var fake;
      err, fake := XlateRev(t, s, Endpoint(V4Of(addr.addr), addr.port));
      if err == Done {
        user := Endpoint6(MappedV6(fake.addr), fake.port);
      }
    }

    method DeleteRevNat(cookie: u64, dst: Endpoint)
      modifies this
      ensures Contents() == Release(old(Contents()), cookie, dst)
    {
      revsk := revsk - {RevKey(cookie, dst)};
    }
  }

  // ---- runs ----

  datatype Event =
    | Xlate(s: Sock, dst: Endpoint, udpOnly: bool, p: Pool, updateFails: bool)
    | Rev(s: Sock, addr: Endpoint)
    | Closed(s: Sock, dst: Endpoint)

  function Step(m: Maps, t: Tables, e: Event): Maps {
    match e
    case Xlate(s, dst, udpOnly, p, fails) => Forward(m, t, s, dst, udpOnly, p, fails).maps
    case Rev(s, addr) => Reverse(m, t, s, addr).maps
    case Closed(s, dst) => Release(m, s.cookie, dst)
  }

  function After(t: Tables, es: seq<Event>): Maps {
    if es == [] then Maps(map[], map[]) else Step(After(t, es[..|es| - 1]), t, es[|es| - 1])
  }

  /** The affinity map, from the calls alone. */
  function AffinityAfter(t: Tables, es: seq<Event>): Lb.Affinity {
    if es == [] then map[]
    else
      var before := AffinityAfter(t, es[..|es| - 1]);
      match es[|es| - 1]
      case Xlate(s, dst, udpOnly, p, _) => Resolve(before, t, s, dst, udpOnly, p).affinity
      case _ => before
  }

  lemma {:induction false} AffinityAgrees(t: Tables, es: seq<Event>)
    ensures After(t, es).affinity == AffinityAfter(t, es)
  {
    hide Resolve;
    if es != [] {
      AffinityAgrees(t, es[..|es| - 1]);
    }
  }

  /**
   The frontend that socket `s` last had translated to `backend`, told from the calls alone; a
   release of the socket connected there forgets it.
   */
  function LastFrontend(t: Tables, es: seq<Event>, s: Sock, backend: Endpoint): Option<Endpoint> {
    if es == [] then None
    else
      var before := LastFrontend(t, es[..|es| - 1], s, backend);
      match es[|es| - 1]
      case Xlate(s', dst, udpOnly, p, fails) =>
        var plan := Resolve(AffinityAfter(t, es[..|es| - 1]), t, s', dst, udpOnly, p).plan;
        if s'.cookie == s.cookie && plan.GoTo? && plan.backend == backend && !fails then Some(dst) else before
      case Rev(_, _) => before
      case Closed(s', dst) => if s'.cookie == s.cookie && dst == backend then None else before
  }

  /** A cookie belongs to one socket. */
  ghost predicate OneSocketPerCookie(es: seq<Event>, s: Sock) {
    forall e :: e in es && e.s.cookie == s.cookie ==> e.s == s
  }

  /** The table agrees with the history of `s`, and nothing in it is stale. */
  ghost predicate Agrees(m: RevTable, t: Tables, s: Sock, backend: Endpoint, front: Option<Endpoint>) {
    var k := RevKey(s.cookie, backend);
    && (k in m <==> front.Some?)
    && (k in m ==> m[k].front == front.value && Current(t, s, m[k]))
  }

  /** What is stored was translated, so it is current as long as the tables are. */
  lemma TranslatedIsCurrent(a: Lb.Affinity, t: Tables, s: Sock, dst: Endpoint, udpOnly: bool, p: Pool)
    requires Resolve(a, t, s, dst, udpOnly, p).plan.GoTo?
    ensures Current(t, s, RevVal(dst, Resolve(a, t, s, dst, udpOnly, p).plan.index))
  {
    hide LookupService, SkipsXlate, Select;
  }

  lemma {:induction false} TableAgrees(t: Tables, es: seq<Event>, s: Sock, backend: Endpoint)
    requires OneSocketPerCookie(es, s)
    ensures Agrees(After(t, es).revsk, t, s, backend, LastFrontend(t, es, s, backend))
  {
    hide Resolve, Current;
    if es != [] {
      var before, e := es[..|es| - 1], es[|es| - 1];
      TableAgrees(t, before, s, backend);
      assert e in es;
      AffinityAgrees(t, before);
      var a := AffinityAfter(t, before);
      if e.Xlate? && e.s == s && Resolve(a, t, s, e.dst, e.udpOnly, e.p).plan.GoTo? {
        TranslatedIsCurrent(a, t, s, e.dst, e.udpOnly, e.p);
      }
    }
  }

  /** Reversing a backend address gives exactly the frontend that the socket last had translated to it. */
  lemma ReverseIsLastFrontend(t: Tables, es: seq<Event>, s: Sock, backend: Endpoint)
    requires OneSocketPerCookie(es, s)
    ensures var out := Reverse(After(t, es), t, s, backend);
            match LastFrontend(t, es, s, backend)
            case Some(front) => out.err == Done && out.dst == front && out.maps == After(t, es)
            case None => out.err == NoEntry && out.dst == backend && out.maps == After(t, es)
  {
    hide Current;
    TableAgrees(t, es, s, backend);
  }

  // ---- the v4-mapped path ----

  /** On a v4-mapped address, each IPv6 call does what the IPv4 call does, and maps the answer. */
  lemma MappedCommutes(m: Maps, t: Tables, s: Sock, a: Endpoint, udpOnly: bool, p: Pool, fails: bool)
    ensures Forward6(m, t, s, Mapped(a), udpOnly, p, fails) == Lift(Forward(m, t, s, a, udpOnly, p, fails))
    ensures Reverse6(m, t, s, Mapped(a)) == Lift(Reverse(m, t, s, a))
    ensures Release6(m, s.cookie, Mapped(a)) == Release(m, s.cookie, a)
  {
    hide LookupService, SkipsXlate, Current;
    MappedIff(MappedV6(a.addr), 0, a.addr);
  }
}
