/**
 Connection tracking of bpf/lib/conntrack.h for IPv4: lookup in both directions, creation with
 a related-ICMP twin, the TCP closing state machine, timeouts and report throttling.
 */
module Conntrack {
  import opened Net

  // A TCP flag byte is the set of its bit positions.
  const FIN := 0
  const SYN := 1
  const RST := 2
  const ACK := 4
  const BYTE: set<nat> := {0, 1, 2, 3, 4, 5, 6, 7}

  type FlagByte = s: set<nat> | s <= BYTE

  /** Timeouts in clock units, the report interval and the mask of reported TCP flags. */
  datatype Timeouts = Timeouts(
    serviceNonTcp: u32, connNonTcp: u32, serviceTcp: u32, connTcp: u32,
    syn: u32, close: u32, rebalance: u32,
    reportInterval: u32, reportFlags: FlagByte)

  /** `natAddr`/`natPort` hold the DSR translation, `backendId` the choice of a service entry. */
  datatype Entry = Entry(
    lifetime: u32, rxClosing: bool, txClosing: bool, seenNonSyn: bool,
    nodePort: bool, dsr: bool, revNatIndex: u16, natAddr: u32, natPort: u16, backendId: u32,
    txFlags: FlagByte, rxFlags: FlagByte, lastTx: u32, lastRx: u32)

  const FRESH := Entry(0, false, false, false, false, false, 0, 0, 0, 0, {}, {}, 0, 0)

  type Table = map<Tuple, Entry>

  // ---- timeouts and reports ----

  function SeenFlags(e: Entry, dir: Dir): FlagByte {
    if dir == Ingress then e.rxFlags else e.txFlags
  }

  function LastReport(e: Entry, dir: Dir): u32 {
    if dir == Ingress then e.lastRx else e.lastTx
  }

  /** All sums are 32 bits wide. */
  predicate ReportDue(e: Entry, c: Timeouts, dir: Dir, now: u32, flags: FlagByte) {
    || (LastReport(e, dir) + c.reportInterval) % U32 < now
    || SeenFlags(e, dir) != flags * c.reportFlags + SeenFlags(e, dir)
  }

  /** What an entry says about its connection's translation. */
  predicate SameIdentity(e: Entry, e': Entry) {
    && e'.nodePort == e.nodePort && e'.dsr == e.dsr && e'.revNatIndex == e.revNatIndex
    && e'.natAddr == e.natAddr && e'.natPort == e.natPort && e'.backendId == e.backendId
  }

  function UpdateTimeout(e: Entry, c: Timeouts, lifetime: u32, dir: Dir, flags: FlagByte, now: u32): (r: Entry)
    ensures SameIdentity(e, r) && r.rxClosing == e.rxClosing && r.txClosing == e.txClosing
    ensures r.lifetime == (now + lifetime) % U32
  {
    var e1 := e.(lifetime := (now + lifetime) % U32);
    if !ReportDue(e, c, dir, now, flags) then e1
    else
      var seen := flags * c.reportFlags + SeenFlags(e, dir);
      if dir == Ingress then e1.(rxFlags := seen, lastRx := now) else e1.(txFlags := seen, lastTx := now)
  }

  /** The lifetime depends on direction, protocol and whether only SYNs were seen. */
  function Refresh(e: Entry, c: Timeouts, tcp: bool, dir: Dir, flags: FlagByte, now: u32): (r: Entry)
    ensures SameIdentity(e, r) && r.rxClosing == e.rxClosing && r.txClosing == e.txClosing
  {
    var e1 := if tcp then e.(seenNonSyn := e.seenNonSyn || SYN !in flags) else e;
    var lifetime :=
      if !tcp then if dir == Service then c.serviceNonTcp else c.connNonTcp
      else if !e1.seenNonSyn then c.syn
      else if dir == Service then c.serviceTcp else c.connTcp;
    UpdateTimeout(e1, c, lifetime, dir, flags, now)
  }

  // ---- looking at one entry ----

  datatype Action = Unspec | Create | Close

  /** FIN and RST win over SYN; a SYN-ACK opens nothing. */
  function SelectAction(flags: FlagByte): Action {
    if RST in flags || FIN in flags then Close
    else if SYN in flags && ACK !in flags then Create
    else Unspec
  }

  predicate Alive(e: Entry) { !e.rxClosing || !e.txClosing }
  predicate Closing(e: Entry) { e.rxClosing || e.txClosing }

  /** Which entries a lookup accepts; the empty selection accepts all. */
  datatype Types = Types(nodePort: bool, dsr: bool, svc: bool)

  const ANY := Types(false, false, false)

  /**
   One lookup: direction, accepted types, the rev_nat_index in the caller's state (if it has
   one), the TCP flags (none without an L4 header or for other protocols) and the clock.
   */
  datatype Query = Query(dir: Dir, types: Types, index: Option<u16>, tcp: bool, flags: Option<FlagByte>, now: u64) {
    function Flags(): FlagByte {
      if flags.Some? then flags.value else {}
    }

    function Action(): Action {
      if flags.Some? then SelectAction(flags.value) else Unspec
    }

    function Now(): u32 {
      now % U32
    }
  }

  predicate MatchesTypes(e: Entry, q: Query) {
    || q.types == ANY
    || (q.types.svc && q.index == Some(e.revNatIndex))
    || (q.types.nodePort && e.nodePort && e.revNatIndex != 0
        && (q.index.None? || q.index.value == 0 || q.index.value == e.revNatIndex))
    || (q.types.dsr && e.dsr)
  }

  /** A SYN to a service whose closing entry is old enough starts over with a new backend. */
  predicate Rebalances(e: Entry, c: Timeouts, q: Query) {
    q.dir == Service && SYN in q.Flags() && Closing(e) && (e.lastTx + c.rebalance) % U32 <= q.now
  }

  /** The lookup reaches the entry's state. */
  predicate Hits(e: Entry, c: Timeouts, q: Query) {
    MatchesTypes(e, q) && !Rebalances(e, c, q)
  }

  // The SYN of the 32-bit TCP flag word, as a little-endian CPU loads it: bit 9.
  const SYN_OF_WORD := 9

  /** ct_entry_seen_both_syns, which takes that mask to the flag bytes. */
  predicate SeenBothSyns(e: Entry) {
    SYN_OF_WORD in e.rxFlags && SYN_OF_WORD in e.txFlags
  }

  function CloseBits(e: Entry, q: Query): (r: Entry)
    ensures SameIdentity(e, r)
  {
    if q.dir == Service || (!SeenBothSyns(e) && RST in q.Flags()) then
      e.(rxClosing := true, txClosing := true)
    else if q.dir == Ingress then e.(rxClosing := true)
    else e.(txClosing := true)
  }

  /** A bare SYN on a closing entry: closing bits and flags are reset. */
  predicate Reopens(e: Entry, c: Timeouts, q: Query) {
    Hits(e, c, q) && q.Action() == Create && Closing(e)
  }

  function Reopened(e: Entry): (r: Entry)
    ensures SameIdentity(e, r) && !Closing(r)
  {
    e.(rxClosing := false, txClosing := false, rxFlags := {}, txFlags := {}, seenNonSyn := false)
  }

  /** The entry after the lookup. */
  function Touch(e: Entry, c: Timeouts, q: Query): (r: Entry)
    ensures SameIdentity(e, r)
  {
    if !Hits(e, c, q) then e
    else
      var e1 := if Alive(e) then Refresh(e, c, q.tcp, q.dir, q.Flags(), q.Now()) else e;
      match q.Action()
      case Unspec => e1
      case Create =>
        if !Closing(e1) then e1
        else Refresh(Reopened(e1), c, q.tcp, q.dir, q.Flags(), q.Now())
      case Close =>
        var e2 := CloseBits(e1, q);
        if Alive(e2) then e2 else UpdateTimeout(e2, c, c.close, q.dir, q.Flags(), q.Now())
  }

  /** Whether the lookup reports an existing connection. */
  predicate Found(e: Entry, c: Timeouts, q: Query) {
    Hits(e, c, q) && !Reopens(e, c, q)
  }

  // ---- looking in the table ----

  datatype Scope = ScopeForward | ScopeReverse | ScopeBidir

  datatype Status = New | Established | ReplyTo | Related | Failed(ret: Ret)

  /** `entry` is the entry that a successful lookup reports its state from. */
  datatype LookupOut = LookupOut(table: Table, status: Status, tuple: Tuple, entry: Option<Entry>)

  function TouchKey(m: Table, k: Tuple, c: Timeouts, q: Query): Table {
    if k in m then m[k := Touch(m[k], c, q)] else m
  }

  predicate FoundKey(m: Table, k: Tuple, c: Timeouts, q: Query) {
    k in m && Found(m[k], c, q)
  }

  function TupleType(dir: Dir, scope: Scope): TupleFlags {
    if dir == Service then SVC
    else if scope == ScopeForward then if dir == Egress then OUT else IN
    else if dir == Egress then IN else OUT
  }

  function LookupForward(m: Table, t: Tuple, c: Timeouts, q: Query): LookupOut {
    var m' := TouchKey(m, t, c, q);
    if FoundKey(m, t, c, q) then LookupOut(m', Established, t, Some(m'[t])) else LookupOut(m', New, t, None)
  }

  /** __ct_lookup4 on a tuple whose flags are set: the reverse direction first, if asked for. */
  function LookupTuple(m: Table, t: Tuple, scope: Scope, c: Timeouts, q: Query): LookupOut {
    if scope == ScopeForward then LookupForward(m, t, c, q)
    else
      var m' := TouchKey(m, t, c, q);
      if FoundKey(m, t, c, q) then LookupOut(m', if t.flags.related then Related else ReplyTo, t, Some(m'[t]))
      else if scope == ScopeReverse then LookupOut(m', New, t, None)
      else LookupForward(m', t.Reverse(), c, q)
  }

  /** ct_lazy_lookup4: the ports are known, the flags follow from direction and scope. */
  function LazyLookup(m: Table, t: Tuple, scope: Scope, c: Timeouts, q: Query): LookupOut {
    LookupTuple(m, t.(flags := TupleType(q.dir, scope)), scope, c, q)
  }

  // ---- packets ----

  /** What conntrack reads behind the IPv4 header; `flags` is present with a TCP header. */
  datatype L4 =
    | Ports(sport: u16, dport: u16, flags: Option<FlagByte>)
    | IcmpEcho(id: u16)
    | IcmpEchoReply(id: u16)
    | IcmpErrorMsg
    | IcmpOther
    | OtherProtocol
    | Unreadable(ret: Ret)

  datatype Pkt = Pkt(saddr: u32, daddr: u32, nexthdr: u8, l4: L4) {
    predicate Valid() {
      && (l4.Ports? ==> nexthdr == TCP || nexthdr == UDP)
      && (l4.IcmpEcho? || l4.IcmpEchoReply? || l4.IcmpErrorMsg? || l4.IcmpOther? ==> nexthdr == ICMP)
      && (l4.OtherProtocol? ==> nexthdr != TCP && nexthdr != UDP && nexthdr != ICMP)
      && (l4.Ports? && nexthdr == UDP ==> l4.flags.None?)
    }

    function TcpFlags(): Option<FlagByte> {
      if l4.Ports? && nexthdr == TCP then l4.flags else None
    }
  }

  /** ct_extract_ports4: the packet's ports in swapped order, and the related bit of ICMP errors. */
  function ExtractPorts(t: Tuple, l4: L4, extended: bool): Option<Tuple> {
    match l4
    case Ports(sport, dport, _) => Some(t.(dport := sport, sport := dport))
    case IcmpEcho(id) => Some(t.(dport := id, sport := 0))
    case IcmpEchoReply(id) => Some(t.(dport := 0, sport := id))
    case IcmpErrorMsg => Some(t.(dport := 0, sport := 0, flags := t.flags.(related := true)))
    case IcmpOther => Some(t.(dport := 0, sport := 0))
    case OtherProtocol => if extended then Some(t.(dport := 0, sport := 0)) else None
    case Unreadable(_) => None
  }

  /** The tuple of `p` as a lookup in direction `dir` first builds it (reverse direction). */
  function PktTuple(p: Pkt, dir: Dir, extended: bool): Option<Tuple> {
    ExtractPorts(Tuple(p.daddr, p.saddr, 0, 0, p.nexthdr, TupleType(dir, ScopeBidir)), p.l4, extended)
  }

  function PktQuery(p: Pkt, dir: Dir, now: u64): Query {
    Query(dir, ANY, None, p.nexthdr == TCP, p.TcpFlags(), now)
  }

  /** ct_lookup4 in both directions, without a state to fill. */
  function Lookup(m: Table, p: Pkt, dir: Dir, extended: bool, c: Timeouts, now: u64): LookupOut {
    match PktTuple(p, dir, extended)
    case None =>
      LookupOut(m, Failed(if p.l4.Unreadable? then p.l4.ret else DropCtUnknownProto),
                Tuple(p.daddr, p.saddr, 0, 0, p.nexthdr, TupleType(dir, ScopeBidir)), None)
    case Some(t) => LookupTuple(m, t, ScopeBidir, c, PktQuery(p, dir, now))
  }

  // ---- creation ----

  /** The twin under which ICMP errors about the flow `t` are found. */
  function RelatedTuple(t: Tuple): Tuple {
    Tuple(t.daddr, t.saddr, 0, 0, ICMP, t.flags.(related := true))
  }

  /** What the caller wants remembered about the connection. */
  datatype State = State(revNatIndex: u16, natAddr: u32, natPort: u16, nodePort: bool, dsr: bool, backendId: u32)

  const NO_STATE := State(0, 0, 0, false, false, 0)

  /** Service entries remember a backend, the others a translation. */
  function FillEntry(st: State, dir: Dir): Entry {
    var e := FRESH.(revNatIndex := st.revNatIndex);
    if dir == Service then e.(backendId := st.backendId)
    else e.(natAddr := st.natAddr, natPort := st.natPort, nodePort := st.nodePort, dsr := st.dsr)
  }

  /** A new entry is refreshed as by a SYN. */
  function NewEntry(st: State, t: Tuple, dir: Dir, c: Timeouts, now: u32): Entry {
    Refresh(FillEntry(st, dir), c, t.nexthdr == TCP, dir, if t.nexthdr == TCP then {SYN} else {}, now)
  }

  datatype CreateOut = CreateOut(table: Table, ret: Ret)

  /** ct_create4; the twin is written first and stays when the main insert fails. */
  function CreateFlow(m: Table, related: bool, t: Tuple, e: Entry, relFails: bool, mainFails: bool): CreateOut {
    if related && relFails then CreateOut(m, DropCtCreateFailed)
    else
      var m1 := if related then m[RelatedTuple(t) := e] else m;
      if mainFails then CreateOut(m1, DropCtCreateFailed) else CreateOut(m1[t := e], Ok)
  }

  // ---- the imperative form ----

  class CtEntry {
    var value: Entry

    constructor (e: Entry)
      ensures value == e
    {
      value := e;
    }

    /** __ct_update_timeout; the result says whether the packet is to be reported. */
    method SetTimeout(c: Timeouts, lifetime: u32, dir: Dir, flags: FlagByte, now: u32) returns (report: bool)
      modifies this
      ensures value == UpdateTimeout(old(value), c, lifetime, dir, flags, now)
      ensures report == ReportDue(old(value), c, dir, now, flags)
    {
      var seen := flags * c.reportFlags;
      value := value.(lifetime := (now + lifetime) % U32);
      var accumulated, last := value.txFlags, value.lastTx;
      if dir == Ingress {
        accumulated, last := value.rxFlags, value.lastRx;
      }
      seen := seen + accumulated;
      if (last + c.reportInterval) % U32 < now || accumulated != seen {
        if dir == Ingress {
          value := value.(rxFlags := seen);
          value := value.(lastRx := now);
        } else {
          value := value.(txFlags := seen);
          value := value.(lastTx := now);
        }
        return true;
      }
      return false;
    }

    /** ct_update_timeout */
    method Update(c: Timeouts, tcp: bool, dir: Dir, flags: FlagByte, now: u32)
      modifies this
      ensures value == Refresh(old(value), c, tcp, dir, flags, now)
    {
      hide UpdateTimeout;
      var lifetime := if dir == Service then c.serviceNonTcp else c.connNonTcp;
      if tcp {
        value := value.(seenNonSyn := value.seenNonSyn || SYN !in flags);
        if !value.seenNonSyn {
          lifetime := c.syn;
        } else {
          lifetime := if dir == Service then c.serviceTcp else c.connTcp;
        }
      }
      var report := SetTimeout(c, lifetime, dir, flags, now);
    }

    /** The closing bits of one direction, or of both. */
    method CloseSide(q: Query)
      modifies this
      ensures value == CloseBits(old(value), q)
    {
      if q.dir == Service || (!SeenBothSyns(value) && RST in q.Flags()) {
        value := value.(rxClosing := true);
        value := value.(txClosing := true);
      } else if q.dir == Ingress {
        value := value.(rxClosing := true);
      } else {
        value := value.(txClosing := true);
      }
    }

    /** A bare SYN starts the entry over. */
    method Reopen()
      modifies this
      ensures value == Reopened(old(value))
    {
      value := value.(rxClosing := false, txClosing := false);
      value := value.(rxFlags := {}, txFlags := {});
      value := value.(seenNonSyn := false);
    }
  }

  class CtMap {
    var entries: Table

    constructor ()
      ensures entries == map[]
    {
      entries := map[];
    }

    /** __ct_lookup: the entry is updated in place, step by step. */
    method LookupKey(k: Tuple, c: Timeouts, q: Query) returns (found: bool)
      modifies this
      ensures entries == TouchKey(old(entries), k, c, q)
      ensures found == FoundKey(old(entries), k, c, q)
    {
      hide Refresh, UpdateTimeout, MatchesTypes, Rebalances, CloseBits, Reopened;
      if k !in entries {
        return false;
      }
      var entry := new CtEntry(entries[k]);
      found := true;
      if !MatchesTypes(entry.value, q) || Rebalances(entry.value, c, q) {
        found := false;
      } else {
        if Alive(entry.value) {
          entry.Update(c, q.tcp, q.dir, q.Flags(), q.Now());
        }
        if q.Action() == Create && Closing(entry.value) {
          entry.Reopen();
          entry.Update(c, q.tcp, q.dir, q.Flags(), q.Now());
          found := false;
        } else if q.Action() == Close {
          entry.CloseSide(q);
          if !Alive(entry.value) {
            var report := entry.SetTimeout(c, c.close, q.dir, q.Flags(), q.Now());
          }
        }
      }
      entries := entries[k := entry.value];
    }

    method LookupBoth(t: Tuple, scope: Scope, c: Timeouts, q: Query)
      returns (status: Status, tuple: Tuple, entry: Option<Entry>)
      modifies this
      ensures LookupOut(entries, status, tuple, entry) == LookupTuple(old(entries), t, scope, c, q)
    {
      tuple, entry := t, None;
      if scope != ScopeForward {
        var found := LookupKey(tuple, c, q);
        if found {
          return if tuple.flags.related then Related else ReplyTo, tuple, Some(entries[tuple]);
        }
        if scope == ScopeReverse {
          return New, tuple, None;
        }
        tuple := tuple.Reverse();
      }
      var found := LookupKey(tuple, c, q);
      if found {
        return Established, tuple, Some(entries[tuple]);
      }
      return New, tuple, None;
    }

    method CreateEntry(related: bool, t: Tuple, st: State, dir: Dir, c: Timeouts, now: u32, relFails: bool, mainFails: bool)
      returns (ret: Ret)
      modifies this
      ensures CreateOut(entries, ret)
           == CreateFlow(old(entries), related, t, NewEntry(st, t, dir, c, now), relFails, mainFails)
    {
      hide Refresh;
      var entry := new CtEntry(FRESH.(revNatIndex := st.revNatIndex));
      if dir == Service {
        entry.value := entry.value.(backendId := st.backendId);
      } else {
        entry.value := entry.value.(natAddr := st.natAddr, natPort := st.natPort, nodePort := st.nodePort, dsr := st.dsr);
      }
      entry.Update(c, t.nexthdr == TCP, dir, if t.nexthdr == TCP then {SYN} else {}, now);
      if related {
        if relFails {
          return DropCtCreateFailed;
        }
        entries := entries[RelatedTuple(t) := entry.value];
      }
      if mainFails {
        return DropCtCreateFailed;
      }
      entries := entries[t := entry.value];
      return Ok;
    }
  }

  // ---- completeness: what creation promises to later lookups ----

  /** The packet that answers `p`. */
  predicate Answers(r: Pkt, p: Pkt) {
    && r.saddr == p.daddr && r.daddr == p.saddr && r.nexthdr == p.nexthdr
    && match p.l4
       case Ports(s, d, _) => r.l4.Ports? && r.l4.sport == d && r.l4.dport == s
       case IcmpEcho(id) => r.l4 == IcmpEchoReply(id)
       case IcmpEchoReply(id) => r.l4 == IcmpEcho(id)
       case _ => false
  }

  /** Another packet of the same direction of the same flow. */
  predicate SameFlow(r: Pkt, p: Pkt) {
    && r.saddr == p.saddr && r.daddr == p.daddr && r.nexthdr == p.nexthdr
    && match p.l4
       case Ports(s, d, _) => r.l4.Ports? && r.l4.sport == s && r.l4.dport == d
       case _ => r.l4 == p.l4
  }

  function Opposite(dir: Dir): Dir {
    if dir == Egress then Ingress else Egress
  }

  /** An answer, looked up the other way round, first tries the key that the flow was stored under. */
  lemma AnswerFindsKey(p: Pkt, r: Pkt, dir: Dir, extended: bool)
    requires dir != Service && Answers(r, p)
    ensures PktTuple(p, dir, extended).Some? && PktTuple(r, Opposite(dir), extended).Some?
    ensures PktTuple(r, Opposite(dir), extended).value == PktTuple(p, dir, extended).value.Reverse()
  {
  }

  /** A table with a live entry for the flow of `p` and its twin answers every packet of the flow. */
  lemma EntryIsRecognised(m: Table, p: Pkt, dir: Dir, extended: bool, c: Timeouts, r: Pkt, later: u64)
    requires dir != Service && p.Valid() && r.Valid() && (p.l4.Ports? || p.l4.IcmpEcho? || p.l4.IcmpEchoReply?)
    requires var t := PktTuple(p, dir, extended).value;
             && t !in m && t.Reverse() in m && !Closing(m[t.Reverse()])
             && RelatedTuple(t.Reverse()) in m && !Closing(m[RelatedTuple(t.Reverse())])
    ensures Answers(r, p) ==> Lookup(m, r, Opposite(dir), extended, c, later).status == ReplyTo
    ensures SameFlow(r, p) ==> Lookup(m, r, dir, extended, c, later).status == Established
    ensures r.l4.IcmpErrorMsg? && r.saddr == p.daddr && r.daddr == p.saddr
            ==> Lookup(m, r, Opposite(dir), extended, c, later).status == Related
  {
    hide Refresh, Touch, SameIdentity;
    if Answers(r, p) { AnswerFindsKey(p, r, dir, extended); }
  }

  lemma NewFlowIsStored(m: Table, p: Pkt, dir: Dir, extended: bool, c: Timeouts, now: u64, st: State)
    requires dir != Service && p.Valid() && (p.l4.Ports? || p.l4.IcmpEcho? || p.l4.IcmpEchoReply?)
    requires var t := PktTuple(p, dir, extended).value; t !in m && t.Reverse() !in m
    ensures var t, out := PktTuple(p, dir, extended).value, Lookup(m, p, dir, extended, c, now);
            && out == LookupOut(m, New, t.Reverse(), None)
            && var e := NewEntry(st, out.tuple, dir, c, now % U32);
               !Closing(e) && CreateFlow(m, true, out.tuple, e, false, false).table
                              == m[RelatedTuple(t.Reverse()) := e][t.Reverse() := e]
  {
    hide Refresh, Touch, SameIdentity;
  }

  /**
   A flow that was new and was then stored: its answers are replies, its own further packets are
   established, and ICMP errors from its peer are related.
   */
  lemma StoredFlowIsRecognised(m: Table, p: Pkt, dir: Dir, extended: bool, c: Timeouts, now: u64,
                               st: State, r: Pkt, later: u64)
    requires dir != Service && p.Valid() && r.Valid() && (p.l4.Ports? || p.l4.IcmpEcho? || p.l4.IcmpEchoReply?)
    requires var t := PktTuple(p, dir, extended).value; t !in m && t.Reverse() !in m
    ensures var out := Lookup(m, p, dir, extended, c, now);
            && out.status == New
            && var m' := CreateFlow(out.table, true, out.tuple, NewEntry(st, out.tuple, dir, c, now % U32), false, false).table;
               && (Answers(r, p) ==> Lookup(m', r, Opposite(dir), extended, c, later).status == ReplyTo)
               && (SameFlow(r, p) ==> Lookup(m', r, dir, extended, c, later).status == Established)
               && (r.l4.IcmpErrorMsg? && r.saddr == p.daddr && r.daddr == p.saddr
                   ==> Lookup(m', r, Opposite(dir), extended, c, later).status == Related)
  {
    hide Lookup, NewEntry, CreateFlow, Answers, SameFlow;
    NewFlowIsStored(m, p, dir, extended, c, now, st);
    var out := Lookup(m, p, dir, extended, c, now);
    EntryIsRecognised(CreateFlow(m, true, out.tuple, NewEntry(st, out.tuple, dir, c, now % U32), false, false).table,
                      p, dir, extended, c, r, later);
  }

  // ---- the closing state machine ----

  predicate Closed(e: Entry) { e.rxClosing && e.txClosing }

  /** Once closed, exactly a reopening SYN opens the entry again, and that lookup reports it as new. */
  lemma OnlyBareSynReopens(e: Entry, c: Timeouts, q: Query)
    requires Closed(e)
    ensures Closed(Touch(e, c, q)) <==> !Reopens(e, c, q)
    ensures Reopens(e, c, q) ==> !Closing(Touch(e, c, q)) && !Found(e, c, q)
    ensures Reopens(e, c, q) ==> SYN in q.Flags() && ACK !in q.Flags() && FIN !in q.Flags() && RST !in q.Flags()
  {
  }

  /** No flag byte has that bit, so every RST that hits an entry closes both directions. */
  lemma RstCloses(e: Entry, c: Timeouts, q: Query)
    requires Hits(e, c, q) && RST in q.Flags()
    ensures !SeenBothSyns(e) && Closed(Touch(e, c, q)) && Touch(e, c, q).lifetime == (q.Now() + c.close) % U32
  {
    hide Refresh;
    assert SYN_OF_WORD !in BYTE;
  }

  /** The entry after a sequence of lookups. */
  function TouchAll(e: Entry, c: Timeouts, qs: seq<Query>): Entry {
    if qs == [] then e else Touch(TouchAll(e, c, qs[..|qs| - 1]), c, qs[|qs| - 1])
  }

  /** The time of the last FIN or RST that hit the entry. */
  function LastClose(e: Entry, c: Timeouts, qs: seq<Query>): Option<u32> {
    if qs == [] then None
    else
      var q := qs[|qs| - 1];
      if Hits(TouchAll(e, c, qs[..|qs| - 1]), c, q) && q.Action() == Close then Some(q.Now())
      else LastClose(e, c, qs[..|qs| - 1])
  }

  /** A closed entry expires close_timeout after the last FIN or RST, whatever else hit it. */
  lemma {:induction false} ClosedLifetime(e: Entry, c: Timeouts, qs: seq<Query>)
    requires !Closed(e) && Closed(TouchAll(e, c, qs))
    ensures LastClose(e, c, qs).Some?
    ensures TouchAll(e, c, qs).lifetime == (LastClose(e, c, qs).value + c.close) % U32
  {
    hide Refresh, UpdateTimeout, MatchesTypes, Rebalances;
    var before := qs[..|qs| - 1];
    var q := qs[|qs| - 1];
    if Closed(TouchAll(e, c, before)) {
      ClosedLifetime(e, c, before);
    }
  }
}
