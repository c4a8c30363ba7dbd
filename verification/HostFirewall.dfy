/**
 The host firewall of bpf/lib/host_firewall.h for IPv4. Policy verdicts, identities, insert
 failures and evictions from the connection table are arbitrary inputs of each step.
 */
module HostFirewall {
  import opened Net
  import opened Conntrack

  const HOST_ID: u32 := 1

  datatype Setup = Setup(extended: bool, timeouts: Timeouts)

  /**
   `verdict` is what the policy says about the packet at that moment; `proxy` says whether the
   packet could be readdressed to the proxy, if the policy names one.
   */
  datatype Event =
    | Out(p: Pkt, srcId: u32, ipcacheId: u32, fromProxy: bool, verdict: Ret, proxy: Option<bool>,
          relFails: bool, mainFails: bool, now: u64)
    | In(p: Pkt, dstId: u32, verdict: Ret, relFails: bool, mainFails: bool, now: u64)
    | Evict(k: Tuple)

  /** `status` is the lookup's answer; there is none when no host address is involved. */
  datatype Outcome = Outcome(table: Table, ret: Ret, status: Option<Status>)

  predicate NeedsEgressPolicy(isHost: bool, fromProxy: bool) {
    isHost && !fromProxy
  }

  /** The packet concerns the host. */
  predicate Concerned(e: Event)
    requires !e.Evict?
  {
    if e.Out? then e.srcId == HOST_ID || e.ipcacheId == HOST_ID else e.dstId == HOST_ID
  }

  /** The policy verdict that counts: exempt packets are not checked. */
  function Verdict(e: Event): Ret
    requires !e.Evict?
  {
    if e.Out? && !NeedsEgressPolicy(e.srcId == HOST_ID, e.fromProxy) then Ok else e.verdict
  }

  /** The policy applied to the packet and named a proxy. */
  predicate ToProxy(e: Event) {
    e.Out? && NeedsEgressPolicy(e.srcId == HOST_ID, e.fromProxy) && e.proxy.Some?
  }

  /** ctx_redirect_to_proxy_host_egress */
  function HandToProxy(readdressed: bool): Ret {
    if readdressed then Redirect else DropWriteError
  }

  function Direction(e: Event): Dir
    requires !e.Evict?
  {
    if e.Out? then Egress else Ingress
  }

  /** Both policy functions: replies and related packets pass, new accepted connections are stored. */
  function Filter(s: Setup, m: Table, e: Event): Outcome
    requires !e.Evict?
  {
    if !Concerned(e) then Outcome(m, Ok, None)
    else
      var found := Lookup(m, e.p, Direction(e), s.extended, s.timeouts, e.now);
      if found.status.Failed? && found.status.ret != DropCtUnknownProto then
        Outcome(found.table, found.status.ret, Some(found.status))
      else if found.status == ReplyTo || found.status == Related then
        Outcome(found.table, Ok, Some(found.status))
      else if found.status == New && Verdict(e) == Ok then
        var created := CreateFlow(found.table, true, found.tuple,
                                  NewEntry(NO_STATE, found.tuple, Direction(e), s.timeouts, e.now % U32),
                                  e.relFails, e.mainFails);
        Outcome(created.table, if created.ret == Ok && ToProxy(e) then HandToProxy(e.proxy.value) else created.ret, Some(New))
      else if ToProxy(e) && (found.status == New || found.status == Established) then
        Outcome(found.table, HandToProxy(e.proxy.value), Some(found.status))
      else Outcome(found.table, Verdict(e), Some(found.status))
  }

  function Step(s: Setup, m: Table, e: Event): Table {
    if e.Evict? then m - {e.k} else Filter(s, m, e).table
  }

  /** The table after a run that starts with an empty table. */
  function TableAfter(s: Setup, es: seq<Event>): Table {
    if es == [] then map[] else Step(s, TableAfter(s, es[..|es| - 1]), es[|es| - 1])
  }

  // ---- the imperative form ----

  class Firewall {
    const ct: CtMap

    constructor ()
      ensures ct.entries == map[] && fresh(ct)
    {
      ct := new CtMap();
    }

    method LookupPacket(s: Setup, p: Pkt, dir: Dir, now: u64) returns (status: Status, tuple: Tuple)
      modifies ct
      ensures var found := Lookup(old(ct.entries), p, dir, s.extended, s.timeouts, now);
              ct.entries == found.table && status == found.status && tuple == found.tuple
    {
      tuple := Tuple(p.daddr, p.saddr, 0, 0, p.nexthdr, TupleType(dir, ScopeBidir));
      var extracted := ExtractPorts(tuple, p.l4, s.extended);
      if extracted.None? {
        return Failed(if p.l4.Unreadable? then p.l4.ret else DropCtUnknownProto), tuple;
      }
      var entry;
      status, tuple, entry := ct.LookupBoth(extracted.value, ScopeBidir, s.timeouts, PktQuery(p, dir, now));
    }

    method PolicyEgress(s: Setup, p: Pkt, srcId: u32, ipcacheId: u32, fromProxy: bool, policy: Ret,
                        proxy: Option<bool>, relFails: bool, mainFails: bool, now: u64)
      returns (ret: Ret)
      modifies ct
      ensures var e := Out(p, srcId, ipcacheId, fromProxy, policy, proxy, relFails, mainFails, now);
              var out := Filter(s, old(ct.entries), e);
              ct.entries == out.table && ret == out.ret
    {
      hide Lookup, CreateFlow, NewEntry;
      if srcId != HOST_ID && ipcacheId != HOST_ID {
        return Ok;
      }
      var status, tuple := LookupPacket(s, p, Egress, now);
      if status.Failed? && status.ret != DropCtUnknownProto {
        return status.ret;
      }
      var verdict := Ok;
      if status == ReplyTo || status == Related {
        return Ok;
      }
      var applyPolicy := NeedsEgressPolicy(srcId == HOST_ID, fromProxy);
      if applyPolicy {
        verdict := policy;
      }
      if status == New && verdict == Ok {
        ret := ct.CreateEntry(true, tuple, NO_STATE, Egress, s.timeouts, now % U32, relFails, mainFails);
        if ret != Ok {
          return;
        }
      }
      if applyPolicy && proxy.Some? && (status == New || status == Established) {
        return HandToProxy(proxy.value);
      }
      return verdict;
    }

    method PolicyIngress(s: Setup, p: Pkt, dstId: u32, policy: Ret, relFails: bool, mainFails: bool, now: u64)
      returns (ret: Ret)
      modifies ct
      ensures var out := Filter(s, old(ct.entries), In(p, dstId, policy, relFails, mainFails, now));
              ct.entries == out.table && ret == out.ret
    {
      hide Lookup, CreateFlow, NewEntry;
      if dstId != HOST_ID {
        return Ok;
      }
      var status, tuple := LookupPacket(s, p, Ingress, now);
      if status.Failed? && status.ret != DropCtUnknownProto {
        return status.ret;
      }
      if status == ReplyTo || status == Related {
        return Ok;
      }
      if status == New && policy == Ok {
        ret := ct.CreateEntry(true, tuple, NO_STATE, Ingress, s.timeouts, now % U32, relFails, mainFails);
        return;
      }
      return policy;
    }
  }

  // ---- every entry goes back to an accepted packet ----

  /** Event `i` was accepted by the policy of its time, or exempt from it, and started a flow. */
  predicate AcceptedNew(s: Setup, es: seq<Event>, i: nat)
    requires i < |es|
  {
    && !es[i].Evict? && Concerned(es[i]) && Verdict(es[i]) == Ok
    && Filter(s, TableAfter(s, es[..i]), es[i]).status == Some(New)
    && PktTuple(es[i].p, Direction(es[i]), s.extended).Some?
  }

  /** The packet goes on, or goes to the proxy that its policy names. */
  predicate LetThrough(s: Setup, m: Table, e: Event)
    requires !e.Evict?
  {
    Filter(s, m, e).ret == Ok || Filter(s, m, e).ret == Redirect
  }

  /** It was let through as well. */
  predicate PassedNew(s: Setup, es: seq<Event>, i: nat)
    requires i < |es|
  {
    AcceptedNew(s, es, i) && LetThrough(s, TableAfter(s, es[..i]), es[i])
  }

  /** If the policy names a proxy, the packet could be readdressed to it. */
  predicate Readdressed(e: Event) {
    ToProxy(e) ==> e.proxy.value
  }

  /** Both inserts worked. */
  predicate Stored(s: Setup, es: seq<Event>, i: nat)
    requires i < |es|
  {
    AcceptedNew(s, es, i) && !es[i].relFails && !es[i].mainFails
  }

  /** The key under which an event's flow is stored. */
  function FlowKey(s: Setup, e: Event): Tuple
    requires !e.Evict? && PktTuple(e.p, Direction(e), s.extended).Some?
  {
    PktTuple(e.p, Direction(e), s.extended).value.Reverse()
  }

  predicate Justifies(s: Setup, es: seq<Event>, i: nat, k: Tuple)
    requires i < |es|
  {
    || (Stored(s, es, i) && k == FlowKey(s, es[i]))
    || (AcceptedNew(s, es, i) && !es[i].relFails && k == RelatedTuple(FlowKey(s, es[i])))
  }

  ghost predicate Justified(s: Setup, es: seq<Event>, k: Tuple) {
    exists i :: 0 <= i < |es| && Justifies(s, es, i, k)
  }

  lemma JustifiedLater(s: Setup, es: seq<Event>, e: Event, k: Tuple)
    requires Justified(s, es, k)
    ensures Justified(s, es + [e], k)
  {
    hide Filter, PktTuple;
    var i :| 0 <= i < |es| && Justifies(s, es, i, k);
    assert (es + [e])[..i] == es[..i];
    assert Justifies(s, es + [e], i, k);
  }

  /** A packet step adds at most its own key, if both inserts work, and the related twin of that key. */
  lemma FilterAdds(s: Setup, m: Table, e: Event, k: Tuple)
    requires !e.Evict? && k in Filter(s, m, e).table && k !in m
    ensures Concerned(e) && Verdict(e) == Ok && Filter(s, m, e).status == Some(New)
    ensures PktTuple(e.p, Direction(e), s.extended).Some?
    ensures || (!e.relFails && !e.mainFails && k == FlowKey(s, e))
            || (!e.relFails && k == RelatedTuple(FlowKey(s, e)))
  {
    hide Touch, Refresh, Found, NewEntry, ExtractPorts;
  }

  /** An accepted new packet is let through exactly when neither insert nor the readdressing to a proxy fails. */
  lemma AcceptedPassesIff(s: Setup, es: seq<Event>, i: nat)
    requires i < |es| && AcceptedNew(s, es, i)
    ensures PassedNew(s, es, i) <==> Stored(s, es, i) && Readdressed(es[i])
  {
    hide Lookup, NewEntry, PktTuple, TableAfter;
  }

  lemma {:induction false} EveryEntryJustified(s: Setup, es: seq<Event>, k: Tuple)
    requires k in TableAfter(s, es)
    ensures Justified(s, es, k)
  {
    hide Filter, PktTuple;
    var before, e := es[..|es| - 1], es[|es| - 1];
    assert es == before + [e];
    if k in TableAfter(s, before) {
      EveryEntryJustified(s, before, k);
      JustifiedLater(s, before, e, k);
    } else {
      FilterAdds(s, TableAfter(s, before), e, k);
      assert Justifies(s, es, |es| - 1, k);
    }
  }

  // ---- the safety theorem ----

  /** Opposite directions and mirrored addresses. */
  predicate Mirrors(later: Event, earlier: Event)
    requires !later.Evict? && !earlier.Evict?
  {
    && Direction(later) != Direction(earlier)
    && later.p.saddr == earlier.p.daddr && later.p.daddr == earlier.p.saddr
  }

  /** Mirrored ports and the same protocol, too: the reversed tuple. */
  predicate MirrorsTuple(s: Setup, later: Event, earlier: Event)
    requires !later.Evict? && !earlier.Evict?
  {
    && Mirrors(later, earlier)
    && PktTuple(later.p, Direction(later), s.extended).Some?
    && PktTuple(earlier.p, Direction(earlier), s.extended).Some?
    && PktTuple(later.p, Direction(later), s.extended).value
       == PktTuple(earlier.p, Direction(earlier), s.extended).value.Reverse()
  }

  lemma KeyMirrors(s: Setup, later: Event, earlier: Event)
    requires !later.Evict? && PktTuple(later.p, Direction(later), s.extended).Some?
    requires !earlier.Evict? && PktTuple(earlier.p, Direction(earlier), s.extended).Some?
    ensures var t := PktTuple(later.p, Direction(later), s.extended).value;
            && (t == FlowKey(s, earlier) ==> MirrorsTuple(s, later, earlier))
            && (t == RelatedTuple(FlowKey(s, earlier)) ==> Mirrors(later, earlier))
  {
  }

  /** A lookup answers reply or related only from an entry under the packet's own first key. */
  lemma BypassNeedsKey(s: Setup, m: Table, e: Event)
    requires !e.Evict?
    requires Filter(s, m, e).status == Some(ReplyTo) || Filter(s, m, e).status == Some(Related)
    ensures PktTuple(e.p, Direction(e), s.extended).Some?
    ensures var t := PktTuple(e.p, Direction(e), s.extended).value;
            && t in m
            && (Filter(s, m, e).status == Some(Related) <==> t.flags.related)
            && (t.flags.related ==> e.p.l4.IcmpErrorMsg?)
  {
    hide Touch, Refresh, Found, NewEntry;
  }

  /**
   Safety over every run: a packet that bypasses the policy as a reply has an earlier packet of the
   opposite direction with the reversed tuple that was accepted or exempt, and was let through unless
   it could not be readdressed to a proxy.
   */
  lemma RepliesAreSolicited(s: Setup, es: seq<Event>, e: Event)
    requires !e.Evict? && Filter(s, TableAfter(s, es), e).status == Some(ReplyTo)
    ensures exists i :: && 0 <= i < |es| && AcceptedNew(s, es, i) && MirrorsTuple(s, e, es[i])
                        && (PassedNew(s, es, i) <==> Readdressed(es[i]))
  {
    hide Filter, PktTuple, FlowKey, Mirrors, MirrorsTuple, LetThrough, ToProxy;
    BypassNeedsKey(s, TableAfter(s, es), e);
    var t := PktTuple(e.p, Direction(e), s.extended).value;
    EveryEntryJustified(s, es, t);
    var i :| 0 <= i < |es| && Justifies(s, es, i, t);
    KeyMirrors(s, e, es[i]);
    AcceptedPassesIff(s, es, i);
    assert AcceptedNew(s, es, i) && MirrorsTuple(s, e, es[i]);
  }

  /**
   An ICMP error that bypasses the policy has an earlier packet of the opposite direction between
   the same two addresses that was accepted or exempt, and was let through unless the insert of its own
   entry or its readdressing to a proxy failed.
   */
  lemma ErrorsAreSolicited(s: Setup, es: seq<Event>, e: Event)
    requires !e.Evict? && Filter(s, TableAfter(s, es), e).status == Some(Related)
    ensures e.p.l4.IcmpErrorMsg?
    ensures exists i :: && 0 <= i < |es| && AcceptedNew(s, es, i) && Mirrors(e, es[i]) && !es[i].relFails
                        && (PassedNew(s, es, i) <==> !es[i].mainFails && Readdressed(es[i]))
  {
    hide Filter, PktTuple, FlowKey, Mirrors, LetThrough, ToProxy;
    BypassNeedsKey(s, TableAfter(s, es), e);
    var t := PktTuple(e.p, Direction(e), s.extended).value;
    EveryEntryJustified(s, es, t);
    var i :| 0 <= i < |es| && Justifies(s, es, i, t);
    KeyMirrors(s, e, es[i]);
    AcceptedPassesIff(s, es, i);
    assert AcceptedNew(s, es, i) && Mirrors(e, es[i]);
  }

  /** A packet whose related insert works does not fail on its own insert. */
  predicate InsertsTogether(e: Event) {
    !e.Evict? && !e.relFails ==> !e.mainFails
  }

  /** Where readdressing never fails, the earlier packet of a reply was let through. */
  lemma RepliesAreSolicitedByPassed(s: Setup, es: seq<Event>, e: Event)
    requires !e.Evict? && Filter(s, TableAfter(s, es), e).status == Some(ReplyTo)
    requires forall i :: 0 <= i < |es| ==> Readdressed(es[i])
    ensures exists i :: 0 <= i < |es| && PassedNew(s, es, i) && MirrorsTuple(s, e, es[i])
  {
    hide Filter, PktTuple, FlowKey, Mirrors, MirrorsTuple, ToProxy;
    RepliesAreSolicited(s, es, e);
    var i :| && 0 <= i < |es| && AcceptedNew(s, es, i) && MirrorsTuple(s, e, es[i])
             && (PassedNew(s, es, i) <==> Readdressed(es[i]));
    assert PassedNew(s, es, i) && MirrorsTuple(s, e, es[i]);
  }

  /** Where the inserts fail only together, too, so was the earlier packet of an ICMP error. */
  lemma ErrorsAreSolicitedByPassed(s: Setup, es: seq<Event>, e: Event)
    requires !e.Evict? && Filter(s, TableAfter(s, es), e).status == Some(Related)
    requires forall i :: 0 <= i < |es| ==> InsertsTogether(es[i]) && Readdressed(es[i])
    ensures exists i :: 0 <= i < |es| && PassedNew(s, es, i) && Mirrors(e, es[i])
  {
    hide Filter, PktTuple, FlowKey, Mirrors, MirrorsTuple, ToProxy;
    ErrorsAreSolicited(s, es, e);
    var i :| && 0 <= i < |es| && AcceptedNew(s, es, i) && Mirrors(e, es[i]) && !es[i].relFails
             && (PassedNew(s, es, i) <==> !es[i].mainFails && Readdressed(es[i]));
    assert InsertsTogether(es[i]) && PassedNew(s, es, i) && Mirrors(e, es[i]);
  }

  /** For TCP and UDP the reversed tuple is the answering packet in the sense of conntrack. */
  lemma MirrorAnswers(s: Setup, later: Event, earlier: Event)
    requires !later.Evict? && !earlier.Evict? && later.p.Valid() && earlier.p.Valid()
    requires earlier.p.l4.Ports? && MirrorsTuple(s, later, earlier)
    ensures Answers(later.p, earlier.p)
  {
  }

  /**
   The accepted packet of `ErrorsAreSolicited` need not have left: the related twin is written
   first, and stays when the main insert or the readdressing to a proxy fails and the packet is dropped.
   */
  lemma DroppedPacketStillAdmitsErrors(s: Setup, p: Pkt, r: Pkt, proxy: Option<bool>, mainFails: bool, now: u64, later: u64)
    requires p.Valid() && p.l4.Ports? && r.Valid() && r.l4.IcmpErrorMsg?
    requires r.saddr == p.daddr && r.daddr == p.saddr
    requires mainFails || proxy == Some(false)
    ensures var e := Out(p, HOST_ID, HOST_ID, false, Ok, proxy, false, mainFails, now);
            && Filter(s, map[], e).ret == (if mainFails then DropCtCreateFailed else DropWriteError)
            && !LetThrough(s, map[], e)
            && Filter(s, TableAfter(s, [e]), In(r, HOST_ID, DropPolicy, false, false, later)).ret == Ok
  {
    hide Filter;
    var e := Out(p, HOST_ID, HOST_ID, false, Ok, proxy, false, mainFails, now);
    AfterOne(s, e);
    FirstPacket(s, p, proxy, mainFails, now);
    TwinAdmits(s, Filter(s, map[], e).table, p, r, later);
  }

  /** Nor need the one of `RepliesAreSolicited`: its entry stays when the readdressing fails. */
  lemma DroppedPacketStillAdmitsReplies(s: Setup, p: Pkt, r: Pkt, now: u64, later: u64)
    requires p.Valid() && p.l4.Ports? && r.Valid() && Answers(r, p)
    ensures var e := Out(p, HOST_ID, HOST_ID, false, Ok, Some(false), false, false, now);
            && Filter(s, map[], e).ret == DropWriteError
            && Filter(s, TableAfter(s, [e]), In(r, HOST_ID, DropPolicy, false, false, later)).ret == Ok
  {
    hide Filter;
    var e := Out(p, HOST_ID, HOST_ID, false, Ok, Some(false), false, false, now);
    AfterOne(s, e);
    FirstPacket(s, p, Some(false), false, now);
    EntryAdmits(s, Filter(s, map[], e).table, p, r, later);
  }

  lemma AfterOne(s: Setup, e: Event)
    requires !e.Evict?
    ensures TableAfter(s, [e]) == Filter(s, map[], e).table
  {
    assert [e][..0] == [];
  }

  lemma FirstPacket(s: Setup, p: Pkt, proxy: Option<bool>, mainFails: bool, now: u64)
    requires p.l4.Ports?
    ensures var out := Filter(s, map[], Out(p, HOST_ID, HOST_ID, false, Ok, proxy, false, mainFails, now));
            var k := PktTuple(p, Egress, s.extended).value.Reverse();
            && out.ret == (if mainFails then DropCtCreateFailed else if proxy.Some? then HandToProxy(proxy.value) else Ok)
            && RelatedTuple(k) in out.table && !Closing(out.table[RelatedTuple(k)])
            && (!mainFails ==> k in out.table && !Closing(out.table[k]))
  {
    hide Refresh, Touch;
  }

  lemma EntryAdmits(s: Setup, m: Table, p: Pkt, r: Pkt, now: u64)
    requires p.l4.Ports? && r.Valid() && Answers(r, p)
    requires var k := PktTuple(p, Egress, s.extended).value.Reverse(); k in m && !Closing(m[k])
    ensures Filter(s, m, In(r, HOST_ID, DropPolicy, false, false, now)).ret == Ok
  {
    hide Touch;
    AnswerFindsKey(p, r, Egress, s.extended);
  }

  lemma TwinAdmits(s: Setup, m: Table, p: Pkt, r: Pkt, now: u64)
    requires p.l4.Ports? && r.Valid() && r.l4.IcmpErrorMsg? && r.saddr == p.daddr && r.daddr == p.saddr
    requires var twin := RelatedTuple(PktTuple(p, Egress, s.extended).value.Reverse()); twin in m && !Closing(m[twin])
    ensures Filter(s, m, In(r, HOST_ID, DropPolicy, false, false, now)).ret == Ok
  {
    hide Touch;
    assert PktTuple(r, Ingress, s.extended).value == RelatedTuple(PktTuple(p, Egress, s.extended).value.Reverse());
  }
}
