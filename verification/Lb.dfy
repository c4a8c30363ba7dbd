/**
 Backend selection of bpf/lib/lb.h for IPv4: lb4_local with its service connection entries and
 session affinity.
 */
module Lb {
  import opened Net
  import opened Conntrack

  datatype Backend = Backend(addr: u32, port: u16, active: bool)

  /** The service as looked up; `affinityTimeout` is in clock units. */
  datatype Svc = Svc(count: u16, revNatIndex: u16, affinity: bool, affinityTimeout: u32, l7Punt: bool)

  datatype Algorithm = Random(rand: u32) | Maglev(id: u32) | First

  /**
   What a packet finds: the service's slots, all backends by id, the session affinity matches, and
   whether its TCP flags can be read and a new entry inserted. All of it may change between packets.
   */
  datatype Env = Env(
    svc: Svc, slots: map<u16, u32>, backends: map<u32, Backend>, matches: set<(u16, u32)>,
    alg: Algorithm, forced: Option<Backend>, flagsReadable: bool, createFails: bool, now: u64)

  /** Slot 0 is the frontend. */
  function RandomSlot(rand: u64, count: u16): (slot: u16)
    requires count > 0
    ensures 1 <= slot <= count
  {
    rand % count + 1
  }

  function SelectBackendId(env: Env): u32
    requires env.svc.count > 0
  {
    match env.alg
    case Random(rand) =>
      var slot := RandomSlot(rand, env.svc.count);
      if slot in env.slots then env.slots[slot] else 0
    case Maglev(id) => id
    case First => if 1 in env.slots then env.slots[1] else 0
  }

  // ---- session affinity ----

  datatype Visit = Visit(backendId: u32, lastUsed: u32)

  /** Packets are remembered by source address, sockets by network namespace. */
  datatype Client = ByAddr(addr: u32) | ByNetns(cookie: u64)

  type Affinity = map<(u16, Client), Visit>

  datatype Remembered = Remembered(affinity: Affinity, id: u32)

  /** The backend this client last used, unless that was too long ago or it left the service. */
  function Recall(a: Affinity, svc: Svc, matches: set<(u16, u32)>, now: u64, client: Client): Remembered {
    var k := (svc.revNatIndex, client);
    if k !in a then Remembered(a, 0)
    else if (a[k].lastUsed + svc.affinityTimeout) % U32 <= now % U32 || (svc.revNatIndex, a[k].backendId) !in matches then
      Remembered(a - {k}, 0)
    else Remembered(a[k := a[k].(lastUsed := now % U32)], a[k].backendId)
  }

  function Remember(a: Affinity, svc: Svc, now: u64, client: Client, id: u32): Affinity {
    if svc.affinity then a[(svc.revNatIndex, client) := Visit(id, now % U32)] else a
  }

  // ---- selection ----

  datatype Choice = Choice(id: u32, backend: Backend, isNew: bool)

  /** The two maps of the node. */
  datatype Maps = Maps(ct: Table, affinity: Affinity)

  datatype Outcome = Outcome(maps: Maps, ret: Ret, choice: Option<Choice>)

  const SVC_TYPE := Types(false, false, true)

  function SvcQuery(t: Tuple, flags: Option<FlagByte>, env: Env): Query {
    Query(Service, SVC_TYPE, Some(env.svc.revNatIndex), t.nexthdr == TCP, if t.nexthdr == TCP then flags else None, env.now)
  }

  function SvcKey(t: Tuple): Tuple {
    t.(flags := SVC)
  }

  function NewSvcEntry(m: Table, t: Tuple, env: Env, id: u32, c: Timeouts): CreateOut {
    CreateFlow(m, false, SvcKey(t),
               NewEntry(NO_STATE.(revNatIndex := env.svc.revNatIndex, backendId := id), SvcKey(t), Service, c, env.now % U32),
               false, env.createFails)
  }

  /** No entry: the client's remembered backend, or a selected one, is stored. */
  function ChooseNew(m: Maps, t: Tuple, env: Env, c: Timeouts): Outcome {
    if env.svc.count == 0 then Outcome(m, DropNoService, None)
    else
      var recalled :=
        if env.svc.affinity then Recall(m.affinity, env.svc, env.matches, env.now, ByAddr(t.saddr))
        else Remembered(m.affinity, 0);
      var reuse := recalled.id != 0 && recalled.id in env.backends;
      var id := if reuse then recalled.id else SelectBackendId(env);
      if id !in env.backends then Outcome(m.(affinity := recalled.affinity), DropNoService, None)
      else
        var created := NewSvcEntry(m.ct, t, env, id, c);
        if created.ret != Ok then Outcome(Maps(created.table, recalled.affinity), created.ret, None)
        else
          Outcome(Maps(created.table, Remember(recalled.affinity, env.svc, env.now, ByAddr(t.saddr), id)), Ok,
                  Some(Choice(id, env.backends[id], !reuse)))
  }

  /** An entry: its backend is kept while it exists, unless a SYN meets one that is not active. */
  function ChooseTracked(m: Maps, t: Tuple, e: Entry, syn: bool, env: Env): Outcome {
    if e.backendId in env.backends && (env.backends[e.backendId].active || !syn) then
      Outcome(m.(affinity := Remember(m.affinity, env.svc, env.now, ByAddr(t.saddr), e.backendId)), Ok,
              Some(Choice(e.backendId, env.backends[e.backendId], false)))
    else if env.svc.count == 0 then Outcome(m, DropNoService, None)
    else
      var id := SelectBackendId(env);
      if id !in env.backends then Outcome(m, DropNoService, None)
      else
        var ct := m.ct[SvcKey(t) := e.(backendId := id, revNatIndex := env.svc.revNatIndex)];
        Outcome(Maps(ct, Remember(m.affinity, env.svc, env.now, ByAddr(t.saddr), id)), Ok,
                Some(Choice(id, env.backends[id], true)))
  }

  /** A backend forced by the caller: the entry is refreshed or created, not consulted. */
  function ChooseForced(m: Maps, t: Tuple, found: LookupOut, env: Env, c: Timeouts): Outcome
    requires env.forced.Some?
  {
    var choice := Choice(0, env.forced.value, false);
    if found.status != New then Outcome(m.(ct := found.table), Ok, Some(choice))
    else
      var created := NewSvcEntry(found.table, t, env, 0, c);
      Outcome(m.(ct := created.table), created.ret, if created.ret == Ok then Some(choice) else None)
  }

  predicate SynSeen(t: Tuple, flags: Option<FlagByte>) {
    t.nexthdr == TCP && flags.Some? && SYN in flags.value
  }

  /** lb4_local */
  function Local(m: Maps, t: Tuple, flags: Option<FlagByte>, env: Env, c: Timeouts): Outcome {
    if env.forced.Some? && env.svc.l7Punt then Outcome(m, Ok, Some(Choice(0, env.forced.value, false)))
    else if t.nexthdr == TCP && flags.Some? && !env.flagsReadable then Outcome(m, DropCtInvalidHdr, None)
    else
      var found := LazyLookup(m.ct, t, ScopeReverse, c, SvcQuery(t, flags, env));
      if env.forced.Some? then ChooseForced(m, t, found, env, c)
      else if found.status == New then ChooseNew(m.(ct := found.table), t, env, c)
      else ChooseTracked(m.(ct := found.table), t, found.entry.value, SynSeen(t, flags), env)
  }

  // ---- the imperative form ----

  class Balancer {
    const ct: CtMap
    var affinity: Affinity

    constructor ()
      ensures fresh(ct) && ct.entries == map[] && affinity == map[]
    {
      ct := new CtMap();
      affinity := map[];
    }

    function Contents(): Maps
      reads this, ct
    {
      Maps(ct.entries, affinity)
    }

    method RecallBackend(svc: Svc, matches: set<(u16, u32)>, now: u64, client: Client) returns (id: u32)
      modifies this
      ensures Remembered(affinity, id) == Recall(old(affinity), svc, matches, now, client)
    {
      var k := (svc.revNatIndex, client);
      if k !in affinity {
        return 0;
      }
      var visit := affinity[k];
      if (visit.lastUsed + svc.affinityTimeout) % U32 <= now % U32 {
        affinity := affinity - {k};
        return 0;
      }
      if (svc.revNatIndex, visit.backendId) !in matches {
        affinity := affinity - {k};
        return 0;
      }
      affinity := affinity[k := visit.(lastUsed := now % U32)];
      return visit.backendId;
    }

    /** The tuple comes back with the flags it had, whatever the outcome. */
    method LocalBackend(t: Tuple, flags: Option<FlagByte>, env: Env, c: Timeouts)
      returns (tuple: Tuple, ret: Ret, choice: Option<Choice>)
      modifies this, ct
      ensures tuple == t
      ensures Outcome(Contents(), ret, choice) == Local(old(Contents()), t, flags, env, c)
    {
      hide NewEntry;
      tuple, choice := t, None;
      if env.forced.Some? && env.svc.l7Punt {
        return tuple, Ok, Some(Choice(0, env.forced.value, false));
      }
      tuple := tuple.(flags := TupleType(Service, ScopeReverse));
      if tuple.nexthdr == TCP && flags.Some? && !env.flagsReadable {
        tuple := tuple.(flags := t.flags);
        return tuple, DropCtInvalidHdr, None;
      }
      var status, key, entry := ct.LookupBoth(tuple, ScopeReverse, c, SvcQuery(t, flags, env));
      if env.forced.Some? {
        ret := Ok;
        if status == New {
          ret := ct.CreateEntry(false, tuple, NO_STATE.(revNatIndex := env.svc.revNatIndex), Service, c,
                                env.now % U32, false, env.createFails);
        }
        if ret == Ok {
          choice := Some(Choice(0, env.forced.value, false));
        }
      } else if status == New {
        ret, choice := StoreNew(tuple, env, c);
      } else {
        ret, choice := KeepOrReplace(tuple, entry.value, SynSeen(t, flags), env);
      }
      tuple := tuple.(flags := t.flags);
    }

    method StoreNew(t: Tuple, env: Env, c: Timeouts) returns (ret: Ret, choice: Option<Choice>)
      requires t.flags == SVC
      modifies this, ct
      ensures Outcome(Contents(), ret, choice) == ChooseNew(old(Contents()), t, env, c)
    {
      hide NewEntry;
      choice := None;
      var id, isNew := 0, false;
      if env.svc.count == 0 {
        return DropNoService, None;
      }
      if env.svc.affinity {
        id := RecallBackend(env.svc, env.matches, env.now, ByAddr(t.saddr));
        if id != 0 && id !in env.backends {
          id := 0;
        }
      }
      if id == 0 {
        id := SelectBackendId(env);
        isNew := true;
        if id !in env.backends {
          return DropNoService, None;
        }
      }
      ret := ct.CreateEntry(false, t, NO_STATE.(revNatIndex := env.svc.revNatIndex, backendId := id), Service, c,
                            env.now % U32, false, env.createFails);
      if ret == Ok {
        affinity := Remember(affinity, env.svc, env.now, ByAddr(t.saddr), id);
        choice := Some(Choice(id, env.backends[id], isNew));
      }
    }

    method KeepOrReplace(t: Tuple, e: Entry, syn: bool, env: Env) returns (ret: Ret, choice: Option<Choice>)
      requires t.flags == SVC && t in ct.entries && ct.entries[t] == e
      modifies this, ct
      ensures Outcome(Contents(), ret, choice) == ChooseTracked(old(Contents()), t, e, syn, env)
    {
      var id, isNew := e.backendId, false;
      if !(id in env.backends && env.backends[id].active) {
        if !(id in env.backends && !syn) {
          if env.svc.count == 0 {
            return DropNoService, None;
          }
          id := SelectBackendId(env);
          if id !in env.backends {
            return DropNoService, None;
          }
          isNew := true;
          ct.entries := ct.entries[t := ct.entries[t].(backendId := id, revNatIndex := env.svc.revNatIndex)];
        }
      }
      affinity := Remember(affinity, env.svc, env.now, ByAddr(t.saddr), id);
      return Ok, Some(Choice(id, env.backends[id], isNew));
    }
  }

  // ---- stickiness ----

  /** The connection `t` of service `r` is tracked with backend `id`. */
  predicate Tracked(m: Maps, t: Tuple, r: u16, id: u32) {
    SvcKey(t) in m.ct && m.ct[SvcKey(t)].revNatIndex == r && m.ct[SvcKey(t)].backendId == id
  }

  /** The choice that `env` calls for when the connection has `id`: keep it, or replace it if it is gone. */
  function NextId(id: u32, env: Env): u32 {
    if env.forced.Some? || id in env.backends || env.svc.count == 0 then id
    else if SelectBackendId(env) in env.backends then SelectBackendId(env)
    else id
  }

  /** A packet of the service, not a SYN, is sent to the tracked backend, active or not, while that exists. */
  lemma TrackedKeepsBackend(m: Maps, t: Tuple, flags: Option<FlagByte>, env: Env, c: Timeouts, id: u32)
    requires Tracked(m, t, env.svc.revNatIndex, id) && !SynSeen(t, flags)
    requires t.nexthdr == TCP && flags.Some? ==> env.flagsReadable
    ensures var out := Local(m, t, flags, env, c);
            && Tracked(out.maps, t, env.svc.revNatIndex, NextId(id, env))
            && (env.forced.None? ==>
                  && (id in env.backends ==> out.ret == Ok && out.choice == Some(Choice(id, env.backends[id], false)))
                  && (id !in env.backends && out.ret == Ok ==>
                        out.choice == Some(Choice(NextId(id, env), env.backends[NextId(id, env)], true)))
                  && (out.ret == Ok <==> NextId(id, env) in env.backends))
  {
    hide Touch, Refresh, NewEntry;
    assert Found(m.ct[SvcKey(t)], c, SvcQuery(t, flags, env));
  }

  /** A packet touches no connection entry but its own service entry. */
  lemma LocalFrame(m: Maps, t: Tuple, flags: Option<FlagByte>, env: Env, c: Timeouts, k: Tuple)
    requires k in m.ct && k != SvcKey(t)
    ensures var m' := Local(m, t, flags, env, c).maps; k in m'.ct && m'.ct[k] == m.ct[k]
  {
    hide ChooseNew, ChooseTracked, ChooseForced, Touch;
    var found := LazyLookup(m.ct, t, ScopeReverse, c, SvcQuery(t, flags, env));
    var m1 := m.(ct := found.table);
    ChooseFrame(m1, t, env, c, k);
    if env.forced.Some? {
      ForcedFrame(m, t, found, env, c, k);
    }
    if found.entry.Some? {
      TrackedFrame(m1, t, found.entry.value, SynSeen(t, flags), env, k);
    }
  }

  lemma ChooseFrame(m: Maps, t: Tuple, env: Env, c: Timeouts, k: Tuple)
    requires k in m.ct && k != SvcKey(t)
    ensures var m' := ChooseNew(m, t, env, c).maps; k in m'.ct && m'.ct[k] == m.ct[k]
  {
    hide Recall, NewEntry;
  }

  lemma ForcedFrame(m: Maps, t: Tuple, found: LookupOut, env: Env, c: Timeouts, k: Tuple)
    requires env.forced.Some? && k in found.table && k != SvcKey(t)
    ensures var m' := ChooseForced(m, t, found, env, c).maps; k in m'.ct && m'.ct[k] == found.table[k]
  {
    hide NewEntry;
  }

  lemma TrackedFrame(m: Maps, t: Tuple, e: Entry, syn: bool, env: Env, k: Tuple)
    requires k in m.ct && k != SvcKey(t)
    ensures var m' := ChooseTracked(m, t, e, syn, env).maps; k in m'.ct && m'.ct[k] == m.ct[k]
  {
  }

  datatype Packet = Packet(t: Tuple, flags: Option<FlagByte>, env: Env)

  function Run(m: Maps, ps: seq<Packet>, c: Timeouts): Maps {
    if ps == [] then m
    else
      var p := ps[|ps| - 1];
      Local(Run(m, ps[..|ps| - 1], c), p.t, p.flags, p.env, c).maps
  }

  /** The sticky choice after the packets, from the backend tables they met alone. */
  function Sticky(t: Tuple, id: u32, ps: seq<Packet>): u32 {
    if ps == [] then id
    else
      var p := ps[|ps| - 1];
      var before := Sticky(t, id, ps[..|ps| - 1]);
      if SvcKey(p.t) == SvcKey(t) then NextId(before, p.env) else before
  }

  /** Packets of `t` go to service `r`, are no SYNs and have readable headers; others are arbitrary. */
  predicate Quiet(t: Tuple, r: u16, ps: seq<Packet>) {
    forall p :: p in ps && SvcKey(p.t) == SvcKey(t) ==>
      && p.env.svc.revNatIndex == r && !SynSeen(p.t, p.flags)
      && (p.t.nexthdr == TCP && p.flags.Some? ==> p.env.flagsReadable)
  }

  /** Over any such run, with other connections in between, the entry holds the sticky choice. */
  lemma {:induction false} RunKeepsSticky(m: Maps, t: Tuple, r: u16, id: u32, ps: seq<Packet>, c: Timeouts)
    requires Tracked(m, t, r, id) && Quiet(t, r, ps)
    ensures Tracked(Run(m, ps, c), t, r, Sticky(t, id, ps))
  {
    hide Local, NextId;
    if ps != [] {
      var before, p := ps[..|ps| - 1], ps[|ps| - 1];
      RunKeepsSticky(m, t, r, id, before, c);
      var mid := Run(m, before, c);
      if SvcKey(p.t) == SvcKey(t) {
        TrackedKeepsBackend(mid, p.t, p.flags, p.env, c, Sticky(t, id, before));
      } else {
        LocalFrame(mid, p.t, p.flags, p.env, c, SvcKey(t));
      }
    }
  }

  /** While the backend stays in the tables that the connection meets, it is the sticky choice. */
  lemma {:induction false} StickyWhilePresent(t: Tuple, id: u32, ps: seq<Packet>)
    requires forall p :: p in ps && SvcKey(p.t) == SvcKey(t) ==> id in p.env.backends
    ensures Sticky(t, id, ps) == id
  {
    if ps != [] {
      assert ps[|ps| - 1] in ps;
      StickyWhilePresent(t, id, ps[..|ps| - 1]);
    }
  }

  /** Every packet of such a run goes to the one backend that the connection was tracked with. */
  lemma StickyBackend(m: Maps, t: Tuple, r: u16, id: u32, ps: seq<Packet>, p: Packet, c: Timeouts)
    requires Tracked(m, t, r, id) && Quiet(t, r, ps + [p]) && SvcKey(p.t) == SvcKey(t) && p.env.forced.None?
    requires forall q :: q in ps + [p] && SvcKey(q.t) == SvcKey(t) ==> id in q.env.backends
    ensures var out := Local(Run(m, ps, c), p.t, p.flags, p.env, c);
            out.ret == Ok && out.choice == Some(Choice(id, p.env.backends[id], false))
  {
    hide Local, NextId;
    assert forall q :: q in ps ==> q in ps + [p];
    assert p in ps + [p];
    RunKeepsSticky(m, t, r, id, ps, c);
    StickyWhilePresent(t, id, ps);
    TrackedKeepsBackend(Run(m, ps, c), p.t, p.flags, p.env, c, id);
  }

  /** A chosen backend is tracked from then on, whether or not an entry existed before. */
  lemma ChosenIsTracked(m: Maps, t: Tuple, flags: Option<FlagByte>, env: Env, c: Timeouts)
    requires env.forced.None? && Local(m, t, flags, env, c).ret == Ok
    ensures var out := Local(m, t, flags, env, c);
            out.choice.Some? && Tracked(out.maps, t, env.svc.revNatIndex, out.choice.value.id)
  {
    hide Touch, Refresh, Recall;
  }

  /** SYNs too: unless the entry is abandoned, its backend is kept exactly when it exists and is active or the packet no SYN. */
  lemma KeptIff(m: Maps, t: Tuple, flags: Option<FlagByte>, env: Env, c: Timeouts, id: u32)
    requires Tracked(m, t, env.svc.revNatIndex, id) && env.forced.None?
    requires t.nexthdr == TCP && flags.Some? ==> env.flagsReadable
    requires var e, q := m.ct[SvcKey(t)], SvcQuery(t, flags, env); !Rebalances(e, c, q) && !Reopens(e, c, q)
    ensures var out := Local(m, t, flags, env, c);
            (out.ret == Ok && !out.choice.value.isNew) <==> id in env.backends && (env.backends[id].active || !SynSeen(t, flags))
    ensures var out := Local(m, t, flags, env, c);
            out.ret == Ok && !out.choice.value.isNew ==> out.choice.value.id == id
  {
    hide Touch, Refresh, NewEntry;
    ChosenHasChoice(m, t, flags, env, c);
  }

  lemma ChosenHasChoice(m: Maps, t: Tuple, flags: Option<FlagByte>, env: Env, c: Timeouts)
    ensures Local(m, t, flags, env, c).ret == Ok <==> Local(m, t, flags, env, c).choice.Some?
  {
    hide Touch, Refresh, Recall, NewEntry;
  }

  // ---- session affinity across connections ----

  /** Client `a` last visited backend `id` of service `r` at time `at`, and all its tracked connections go there. */
  ghost predicate Loyal(m: Maps, r: u16, a: u32, id: u32, at: u32) {
    && (r, ByAddr(a)) in m.affinity && m.affinity[(r, ByAddr(a))] == Visit(id, at)
    && OnlyBackend(m.ct, r, a, id)
  }

  ghost predicate OnlyBackend(ct: Table, r: u16, a: u32, id: u32) {
    forall k :: k in ct && k.flags == SVC && k.saddr == a && ct[k].revNatIndex == r ==> ct[k].backendId == id
  }

  /** A packet of client `a` to service `r`. */
  predicate Visits(p: Packet, r: u16, a: u32) {
    p.t.saddr == a && p.env.svc.revNatIndex == r
  }

  /** The service has affinity, still offers `id`, to SYNs as an active backend, and the visit of time `at` has not expired. */
  predicate Welcomes(p: Packet, id: u32, at: u32) {
    && p.env.svc.affinity && p.env.svc.count > 0 && p.env.forced.None? && p.env.flagsReadable
    && id in p.env.backends && (p.env.backends[id].active || !SynSeen(p.t, p.flags))
    && (p.env.svc.revNatIndex, id) in p.env.matches
    && p.env.now % U32 < (at + p.env.svc.affinityTimeout) % U32
  }

  lemma VisitNew(m: Maps, p: Packet, c: Timeouts, r: u16, a: u32, id: u32, at: u32)
    requires Loyal(m, r, a, id, at) && Visits(p, r, a) && Welcomes(p, id, at) && id != 0
    ensures var out := ChooseNew(m, p.t, p.env, c);
            && Loyal(out.maps, r, a, id, p.env.now % U32)
            && (out.ret == Ok <==> !p.env.createFails)
            && (out.ret == Ok ==> out.choice == Some(Choice(id, p.env.backends[id], false)))
  {
    hide Refresh;
  }

  lemma VisitTracked(m: Maps, p: Packet, e: Entry, r: u16, a: u32, id: u32, at: u32)
    requires Loyal(m, r, a, id, at) && Visits(p, r, a) && Welcomes(p, id, at) && e.backendId == id
    ensures var out := ChooseTracked(m, p.t, e, SynSeen(p.t, p.flags), p.env);
            && Loyal(out.maps, r, a, id, p.env.now % U32)
            && out.ret == Ok && out.choice == Some(Choice(id, p.env.backends[id], false))
  {
  }

  /** A lookup changes no entry's service or backend. */
  lemma LookupLoyal(m: Maps, t: Tuple, c: Timeouts, q: Query, r: u16, a: u32, id: u32, at: u32)
    requires Loyal(m, r, a, id, at)
    ensures Loyal(m.(ct := TouchKey(m.ct, t, c, q)), r, a, id, at)
  {
    hide Touch;
  }

  /** The client's packet goes to the remembered backend, whether or not its connection is new. */
  lemma VisitKeepsBackend(m: Maps, p: Packet, c: Timeouts, r: u16, a: u32, id: u32, at: u32)
    requires Loyal(m, r, a, id, at) && Visits(p, r, a) && Welcomes(p, id, at) && id != 0
    ensures var out := Local(m, p.t, p.flags, p.env, c);
            && Loyal(out.maps, r, a, id, p.env.now % U32)
            && (out.ret != Ok ==> p.env.createFails)
            && (out.ret == Ok ==> out.choice == Some(Choice(id, p.env.backends[id], false)))
  {
    hide Touch, ChooseNew, ChooseTracked, Loyal, Welcomes;
    var q := SvcQuery(p.t, p.flags, p.env);
    LookupLoyal(m, SvcKey(p.t), c, q, r, a, id, at);
    var found := LazyLookup(m.ct, p.t, ScopeReverse, c, q);
    WelcomesPlainly(p, id, at);
    if found.status == New {
      VisitNew(m.(ct := found.table), p, c, r, a, id, at);
    } else {
      TrackedIsLoyal(m, p, c, r, a, id, at);
      VisitTracked(m.(ct := found.table), p, found.entry.value, r, a, id, at);
    }
  }

  lemma WelcomesPlainly(p: Packet, id: u32, at: u32)
    requires Welcomes(p, id, at)
    ensures p.env.forced.None? && p.env.flagsReadable
  {
  }

  lemma TrackedIsLoyal(m: Maps, p: Packet, c: Timeouts, r: u16, a: u32, id: u32, at: u32)
    requires Loyal(m, r, a, id, at) && Visits(p, r, a)
    requires LazyLookup(m.ct, p.t, ScopeReverse, c, SvcQuery(p.t, p.flags, p.env)).status != New
    ensures var found := LazyLookup(m.ct, p.t, ScopeReverse, c, SvcQuery(p.t, p.flags, p.env));
            found.entry.Some? && found.entry.value.backendId == id
  {
    hide Touch;
  }

  /** Every other packet leaves the client's visit and connections alone. */
  lemma OthersKeepLoyal(m: Maps, p: Packet, c: Timeouts, r: u16, a: u32, id: u32, at: u32)
    requires Loyal(m, r, a, id, at) && !Visits(p, r, a)
    ensures Loyal(Local(m, p.t, p.flags, p.env, c).maps, r, a, id, at)
  {
    hide Touch, ChooseNew, ChooseTracked, ChooseForced, Loyal;
    var q := SvcQuery(p.t, p.flags, p.env);
    LookupLoyal(m, SvcKey(p.t), c, q, r, a, id, at);
    var found := LazyLookup(m.ct, p.t, ScopeReverse, c, q);
    var m1 := m.(ct := found.table);
    OtherNew(m1, p, c, r, a, id, at);
    if p.env.forced.Some? {
      OtherForced(m, p, found, c, r, a, id, at);
    }
    if found.entry.Some? {
      OtherTracked(m1, p, found.entry.value, r, a, id, at);
    }
  }

  lemma OtherNew(m: Maps, p: Packet, c: Timeouts, r: u16, a: u32, id: u32, at: u32)
    requires Loyal(m, r, a, id, at) && !Visits(p, r, a)
    ensures Loyal(ChooseNew(m, p.t, p.env, c).maps, r, a, id, at)
  {
    hide Refresh;
  }

  lemma OtherForced(m: Maps, p: Packet, found: LookupOut, c: Timeouts, r: u16, a: u32, id: u32, at: u32)
    requires Loyal(m.(ct := found.table), r, a, id, at) && !Visits(p, r, a) && p.env.forced.Some?
    ensures Loyal(ChooseForced(m, p.t, found, p.env, c).maps, r, a, id, at)
  {
    hide Refresh;
  }

  lemma OtherTracked(m: Maps, p: Packet, e: Entry, r: u16, a: u32, id: u32, at: u32)
    requires Loyal(m, r, a, id, at) && !Visits(p, r, a)
    ensures Loyal(ChooseTracked(m, p.t, e, SynSeen(p.t, p.flags), p.env).maps, r, a, id, at)
  {
  }

  /** When the client last visited, if `at` was its last visit before the packets. */
  function LastVisit(at: u32, ps: seq<Packet>, r: u16, a: u32): u32 {
    if ps == [] then at
    else if Visits(ps[|ps| - 1], r, a) then ps[|ps| - 1].env.now % U32
    else LastVisit(at, ps[..|ps| - 1], r, a)
  }

  /** Every visit finds the backend in the service and comes in time after the one before. */
  predicate Steady(at: u32, ps: seq<Packet>, r: u16, a: u32, id: u32) {
    ps != [] ==>
      && Steady(at, ps[..|ps| - 1], r, a, id)
      && (Visits(ps[|ps| - 1], r, a) ==> Welcomes(ps[|ps| - 1], id, LastVisit(at, ps[..|ps| - 1], r, a)))
  }

  lemma {:induction false} RunKeepsLoyal(m: Maps, ps: seq<Packet>, c: Timeouts, r: u16, a: u32, id: u32, at: u32)
    requires Loyal(m, r, a, id, at) && Steady(at, ps, r, a, id) && id != 0
    ensures Loyal(Run(m, ps, c), r, a, id, LastVisit(at, ps, r, a))
  {
    hide Loyal, Local, Welcomes, Visits;
    if ps != [] {
      var before, p := ps[..|ps| - 1], ps[|ps| - 1];
      RunKeepsLoyal(m, before, c, r, a, id, at);
      var mid, last := Run(m, before, c), LastVisit(at, before, r, a);
      if Visits(p, r, a) {
        VisitTime(p, r, a);
        VisitKeepsBackend(mid, p, c, r, a, id, last);
      } else {
        OthersKeepLoyal(mid, p, c, r, a, id, last);
      }
    }
  }

  lemma VisitTime(p: Packet, r: u16, a: u32)
    requires Visits(p, r, a)
    ensures p.t.saddr == a && p.env.svc.revNatIndex == r
  {
  }

  /**
   All connections of a client to a service with affinity go to one backend, over any packets of other
   clients and services, while the visits follow each other in time and the backend stays in the service.
   */
  lemma StickyClient(m: Maps, ps: seq<Packet>, p: Packet, c: Timeouts, r: u16, a: u32, id: u32, at: u32)
    requires Loyal(m, r, a, id, at) && id != 0 && Visits(p, r, a) && Steady(at, ps + [p], r, a, id)
    ensures var out := Local(Run(m, ps, c), p.t, p.flags, p.env, c);
            && (out.ret != Ok ==> p.env.createFails)
            && (out.ret == Ok ==> out.choice == Some(Choice(id, p.env.backends[id], false)))
  {
    hide Loyal, Local, Welcomes, Visits, Run;
    assert (ps + [p])[..|ps|] == ps;
    RunKeepsLoyal(m, ps, c, r, a, id, at);
    VisitKeepsBackend(Run(m, ps, c), p, c, r, a, id, LastVisit(at, ps, r, a));
  }

  /** A client without connections to the service becomes loyal to the backend of its first one. */
  lemma FirstVisit(m: Maps, p: Packet, c: Timeouts)
    requires p.env.svc.affinity && p.env.forced.None?
    requires (p.env.svc.revNatIndex, ByAddr(p.t.saddr)) !in m.affinity
    requires forall k :: k in m.ct && k.flags == SVC && k.saddr == p.t.saddr ==> m.ct[k].revNatIndex != p.env.svc.revNatIndex
    requires Local(m, p.t, p.flags, p.env, c).ret == Ok
    ensures var out := Local(m, p.t, p.flags, p.env, c);
            out.choice.Some? && Loyal(out.maps, p.env.svc.revNatIndex, p.t.saddr, out.choice.value.id, p.env.now % U32)
  {
    hide Touch, Refresh;
  }

  // ---- a service with one backend ----

  /** A service with one active backend. */
  predicate Sole(env: Env, id: u32) {
    && env.forced.None? && env.flagsReadable && !env.createFails && env.alg.Random?
    && env.svc.count == 1 && !env.svc.affinity && env.slots == map[1 := id]
    && env.backends.Keys == {id} && env.backends[id].active
  }

  /** Whatever is tracked, every packet of the service goes to that backend. */
  lemma SoleIsChosen(m: Maps, t: Tuple, flags: Option<FlagByte>, env: Env, c: Timeouts, id: u32)
    requires Sole(env, id)
    ensures var out := Local(m, t, flags, env, c);
            out.ret == Ok && out.choice.Some? && out.choice.value.id == id && out.choice.value.backend == env.backends[id]
  {
    hide LazyLookup, NewEntry, Recall;
  }
}
