/**
 The SNAT table of bpf/lib/nat.h: allocation of a reverse and a forward entry, replacement
 of stale entries, and repair of a half that the LRU map evicted.

 The clock, the random numbers and the failures of map and conntrack helpers are inputs.
 */
module Snat {
  import opened Net
  import opened PortRange

  const RETRIES: nat := 32

  /** `addr`/`port` is the new source of a forward entry, the new destination of a reverse one. */
  datatype NatEntry = NatEntry(created: u64, needsCt: bool, addr: u32, port: u16)

  type Table = map<Tuple, NatEntry>

  datatype Target = Target(addr: u32, range: Range, needsCt: bool)

  /** What the helpers answer during one packet. */
  datatype Env = Env(
    now: u64,
    keepRand: u16,            // random number of the first port choice
    retryRand: u16,           // random number of the first retry
    reserveFails: set<nat>,   // attempts whose reverse insert fails for another reason than a collision
    publishFails: bool,       // the forward insert fails
    rollbackFails: bool,      // deleting the reverse entry after that fails
    deleteFails: bool,        // deleting a stale forward entry fails
    revDeleteFails: bool,     // deleting a stale reverse entry fails
    repairFails: bool,        // inserting a missing half fails
    ctFails: bool)            // the conntrack lookup or create fails

  /** The key that matches replies to flow `o` once its source is `addr:port`. */
  function RevTuple(o: Tuple, addr: u32, port: u16): Tuple {
    Tuple(addr, o.daddr, port, o.dport, o.nexthdr, IN)
  }

  /** The flow that the reverse entry `e` under key `r` belongs to. */
  function FwdTuple(r: Tuple, e: NatEntry): Tuple {
    Tuple(r.saddr, e.addr, r.sport, e.port, r.nexthdr, OUT)
  }

  /** The port tried by attempt `i`, in host byte order like the range. */
  function Candidate(t: Target, sport: u16, env: Env, i: nat): (port: u16)
    ensures Inside(t.range, port)
  {
    if i == 0 then TryKeepPort(t.range.min, t.range.max, sport, env.keepRand)
    else if i == 1 then Clamp(t.range.min, t.range.max, env.retryRand)
    else Clamp(t.range.min, t.range.max, (Candidate(t, sport, env, i - 1) + 1) % U16)
  }

  function AttemptKey(o: Tuple, t: Target, env: Env, i: nat): Tuple {
    RevTuple(o, t.addr, Swap16(Candidate(t, Swap16(o.sport), env, i)))
  }

  /** The first attempt from `i` on whose insert succeeds, or RETRIES. */
  function FirstFree(m: Table, o: Tuple, t: Target, env: Env, i: nat): (k: nat)
    requires i <= RETRIES
    ensures i <= k <= RETRIES
    ensures k < RETRIES ==> AttemptKey(o, t, env, k) !in m
    decreases RETRIES - i
  {
    if i == RETRIES then i
    else if AttemptKey(o, t, env, i) !in m && i !in env.reserveFails then i
    else FirstFree(m, o, t, env, i + 1)
  }

  /** What one handler returns: the new table, a verdict and the entry to rewrite with. */
  datatype Outcome = Outcome(table: Table, ret: Ret, entry: Option<NatEntry>)

  function Allocate(m: Table, o: Tuple, t: Target, env: Env): Outcome {
    var k := FirstFree(m, o, t, env, 0);
    if k == RETRIES then Outcome(m, DropNatNoMapping, None)
    else
      var r := AttemptKey(o, t, env, k);
      var reserved := m[r := NatEntry(env.now, t.needsCt, o.saddr, o.sport)];
      if env.publishFails then
        Outcome(if env.rollbackFails then reserved else m, DropNatNoMapping, None)
      else
        var e := NatEntry(env.now, t.needsCt, t.addr, r.dport);
        Outcome(reserved[o := e], Ok, Some(e))
  }

  /** A hit that still agrees with the target. */
  predicate Fresh(e: NatEntry, t: Target) {
    e.addr == t.addr && e.needsCt == t.needsCt
  }

  /** The table after both halves of the stale flow `o` were deleted. */
  function DropStale(m: Table, o: Tuple, env: Env): Table
    requires o in m
  {
    var r := RevTuple(o, m[o].addr, m[o].port);
    if env.revDeleteFails then m - {o} else m - {o} - {r}
  }

  function Forward(m: Table, o: Tuple, t: Target, env: Env): Outcome {
    if t.needsCt && env.ctFails then Outcome(m, DropCtLookup, None)
    else if o in m && Fresh(m[o], t) then
      var r := RevTuple(o, m[o].addr, m[o].port);
      if r in m then Outcome(m, Ok, Some(m[o]))
      else if env.repairFails then Outcome(m, DropNatNoMapping, None)
      else Outcome(m[r := NatEntry(env.now, t.needsCt, o.saddr, o.sport)], Ok, Some(m[o]))
    else if o in m && env.deleteFails then Outcome(m, DropNatDelete, None)
    else Allocate(if o in m then DropStale(m, o, env) else m, o, t, env)
  }

  function Reply(m: Table, r: Tuple, env: Env): Outcome {
    if r !in m then Outcome(m, DropNatNoMapping, None)
    else
      var e := m[r];
      var o := FwdTuple(r, e);
      if o !in m && env.repairFails then Outcome(m, DropNatNoMapping, None)
      else
        var m' := if o in m then m else m[o := NatEntry(env.now, e.needsCt, r.daddr, r.dport)];
        if e.needsCt && env.ctFails then Outcome(m', DropCtLookup, None)
        else Outcome(m', Ok, Some(e))
  }

  // ---- the imperative form ----

  class SnatMap {
    var entries: Table

    constructor ()
      ensures entries == map[]
    {
      entries := map[];
    }

    /** map_update_elem; `noexist` refuses an existing key. */
    method Create(key: Tuple, e: NatEntry, noexist: bool, fails: bool) returns (ok: bool)
      modifies this
      ensures ok <==> !fails && !(noexist && key in old(entries))
      ensures entries == if ok then old(entries)[key := e] else old(entries)
    {
      ok := !fails && !(noexist && key in entries);
      if ok {
        entries := entries[key := e];
      }
    }

    /** The port search: insert the reverse entry under the first key that is free. */
    method Reserve(o: Tuple, t: Target, env: Env) returns (k: nat, rtuple: Tuple)
      modifies this
      ensures k == FirstFree(old(entries), o, t, env, 0)
      ensures k == RETRIES ==> entries == old(entries)
      ensures k < RETRIES ==>
                && rtuple == AttemptKey(o, t, env, k)
                && entries == old(entries)[rtuple := NatEntry(env.now, t.needsCt, o.saddr, o.sport)]
    {
      hide Swap16;
      var port := TryKeepPort(t.range.min, t.range.max, Swap16(o.sport), env.keepRand);
      rtuple := RevTuple(o, t.addr, Swap16(port));
      k := 0;
      while k < RETRIES
        invariant k <= RETRIES
        invariant port == Candidate(t, Swap16(o.sport), env, k)
        invariant entries == old(entries)
        invariant FirstFree(entries, o, t, env, 0) == FirstFree(entries, o, t, env, k)
      {
        rtuple := RevTuple(o, t.addr, Swap16(port));
        var ok := Create(rtuple, NatEntry(env.now, t.needsCt, o.saddr, o.sport), true, k in env.reserveFails);
        if ok {
          return;
        }
        port := Clamp(t.range.min, t.range.max, if k != 0 then (port + 1) % U16 else env.retryRand);
        k := k + 1;
      }
    }

    method NewMapping(o: Tuple, t: Target, env: Env) returns (ret: Ret, entry: Option<NatEntry>)
      modifies this
      ensures Outcome(entries, ret, entry) == Allocate(old(entries), o, t, env)
    {
      var k, rtuple := Reserve(o, t, env);
      if k == RETRIES {
        return DropNatNoMapping, None;
      }
      var ostate := NatEntry(env.now, t.needsCt, t.addr, rtuple.dport);
      var ok := Create(o, ostate, false, env.publishFails);
      if !ok {
        if !env.rollbackFails {
          entries := entries - {rtuple};
          assert entries == old(entries);
        }
        return DropNatNoMapping, None;
      }
      return Ok, Some(ostate);
    }

    method HandleMapping(o: Tuple, t: Target, env: Env) returns (ret: Ret, entry: Option<NatEntry>)
      modifies this
      ensures Outcome(entries, ret, entry) == Forward(old(entries), o, t, env)
    {
      var hit := o in entries;
      if t.needsCt && env.ctFails {
        return DropCtLookup, None;
      }
      if hit {
        var e := entries[o];
        var rtuple := RevTuple(o, e.addr, e.port);
        if Fresh(e, t) {
          if rtuple !in entries {
            var ok := Create(rtuple, NatEntry(env.now, t.needsCt, o.saddr, o.sport), false, env.repairFails);
            if !ok {
              return DropNatNoMapping, None;
            }
          }
          return Ok, Some(e);
        }
        if env.deleteFails {
          return DropNatDelete, None;
        }
        entries := entries - {o};
        if rtuple in entries && !env.revDeleteFails {
          entries := entries - {rtuple};
        }
        assert entries == DropStale(old(entries), o, env);
      }
      ret, entry := NewMapping(o, t, env);
    }

    method RevHandleMapping(r: Tuple, env: Env) returns (ret: Ret, entry: Option<NatEntry>)
      modifies this
      ensures Outcome(entries, ret, entry) == Reply(old(entries), r, env)
    {
      if r in entries {
        var e := entries[r];
        var otuple := Tuple(r.saddr, e.addr, r.sport, e.port, r.nexthdr, OUT);
        if otuple !in entries {
          var ok := Create(otuple, NatEntry(env.now, e.needsCt, r.daddr, r.dport), false, env.repairFails);
          if !ok {
            return DropNatNoMapping, None;
          }
        }
        if e.needsCt && env.ctFails {
          return DropCtLookup, None;
        }
        return Ok, Some(e);
      }
      return DropNatNoMapping, None;
    }
  }

  // ---- pairing ----

  predicate IsFwd(k: Tuple) { k.flags == OUT }
  predicate IsRev(k: Tuple) { k.flags == IN }

  /** The forward entry of `o` has its reverse entry, pointing back at it. */
  predicate FwdPaired(m: Table, o: Tuple)
    requires o in m
  {
    var r := RevTuple(o, m[o].addr, m[o].port);
    r in m && FwdTuple(r, m[r]) == o && m[r].needsCt == m[o].needsCt
  }

  predicate RevPaired(m: Table, r: Tuple)
    requires r in m
  {
    var o := FwdTuple(r, m[r]);
    o in m && RevTuple(o, m[o].addr, m[o].port) == r && m[o].needsCt == m[r].needsCt
  }

  /** Every key is one of the two kinds, and all but the keys in `but` have their partner. */
  ghost predicate PairedBut(m: Table, but: set<Tuple>) {
    && (forall k :: k in m ==> IsFwd(k) || IsRev(k))
    && (forall k :: k in m && IsFwd(k) && k !in but ==> FwdPaired(m, k))
    && (forall k :: k in m && IsRev(k) && k !in but ==> RevPaired(m, k))
  }

  /** The two halves are exact inverses of each other. */
  ghost predicate Paired(m: Table) {
    PairedBut(m, {})
  }

  /** A deletion that the step relies on is lost: a stale reverse entry or a rollback. */
  predicate LosesDelete(m: Table, o: Tuple, t: Target, env: Env) {
    && !(t.needsCt && env.ctFails)
    && !(o in m && (Fresh(m[o], t) || env.deleteFails))
    && var m' := if o in m then DropStale(m, o, env) else m;
       || (o in m && env.revDeleteFails)
       || (FirstFree(m', o, t, env, 0) < RETRIES && env.publishFails && env.rollbackFails)
  }

  /** Two flows to one remote endpoint never share an external address and port. */
  ghost predicate Exclusive(m: Table) {
    forall o1, o2 ::
      (&& o1 in m && o2 in m && IsFwd(o1) && IsFwd(o2)
       && o1.daddr == o2.daddr && o1.dport == o2.dport && o1.nexthdr == o2.nexthdr
       && m[o1].addr == m[o2].addr && m[o1].port == m[o2].port)
      ==> o1 == o2
  }

  /** Every forward entry is backed by its reverse entry. */
  ghost predicate Backed(m: Table) {
    forall o :: o in m && IsFwd(o) ==> FwdPaired(m, o)
  }

  lemma BackedIsExclusive(m: Table)
    requires Backed(m)
    ensures Exclusive(m)
  {
  }

  lemma AllocatePairs(m: Table, o: Tuple, t: Target, env: Env, but: set<Tuple>)
    requires PairedBut(m, but) && IsFwd(o) && o !in m
    requires forall r :: r in m && IsRev(r) && r in but ==> FwdTuple(r, m[r]) != o
    requires !(env.publishFails && env.rollbackFails)
    ensures PairedBut(Allocate(m, o, t, env).table, but)
  {
    var k := FirstFree(m, o, t, env, 0);
    if k < RETRIES && !env.publishFails {
      var r := AttemptKey(o, t, env, k);
      var m' := Allocate(m, o, t, env).table;
      forall f | f in m' && IsFwd(f) && f !in but ensures FwdPaired(m', f) {
        if f != o { assert FwdPaired(m, f); }
      }
      forall q | q in m' && IsRev(q) && q !in but ensures RevPaired(m', q) {
        if q != r { assert RevPaired(m, q); }
      }
    }
  }

  lemma DropStalePairs(m: Table, o: Tuple, env: Env, but: set<Tuple>)
    requires PairedBut(m, but) && IsFwd(o) && o in m && o !in but && !env.revDeleteFails
    requires forall r :: r in but && r in m && IsRev(r) ==> FwdTuple(r, m[r]) != o
    requires forall f :: f in but && f in m && IsFwd(f) ==> f != o
    ensures PairedBut(DropStale(m, o, env), but)
  {
    var m' := DropStale(m, o, env);
    assert FwdPaired(m, o);
    forall f | f in m' && IsFwd(f) && f !in but ensures FwdPaired(m', f) {
      assert FwdPaired(m, f);
    }
    forall q | q in m' && IsRev(q) && q !in but ensures RevPaired(m', q) {
      assert RevPaired(m, q);
    }
  }

  /** One packet keeps the pairing exactly when it loses no deletion. */
  lemma ForwardKeepsPairingIff(m: Table, o: Tuple, t: Target, env: Env)
    requires Paired(m) && IsFwd(o)
    ensures Paired(Forward(m, o, t, env).table) <==> !LosesDelete(m, o, t, env)
  {
    var m' := Forward(m, o, t, env).table;
    if o in m { assert FwdPaired(m, o); }
    if LosesDelete(m, o, t, env) {
      LostDeleteLeavesOrphan(m, o, t, env);
    } else if !(t.needsCt && env.ctFails) {
      if o in m && !Fresh(m[o], t) && !env.deleteFails {
        DropStalePairs(m, o, env, {});
        AllocateOutcome(DropStale(m, o, env), o, t, env);
      } else if o !in m {
        AllocateOutcome(m, o, t, env);
      }
    }
  }

  /** Without a lost rollback, a new mapping keeps the pairing. */
  lemma AllocateOutcome(m: Table, o: Tuple, t: Target, env: Env)
    requires Paired(m) && IsFwd(o) && o !in m
    requires FirstFree(m, o, t, env, 0) < RETRIES ==> !(env.publishFails && env.rollbackFails)
    ensures Paired(Allocate(m, o, t, env).table)
  {
    if FirstFree(m, o, t, env, 0) < RETRIES {
      AllocatePairs(m, o, t, env, {});
    }
  }

  lemma LostDeleteLeavesOrphan(m: Table, o: Tuple, t: Target, env: Env)
    requires Paired(m) && IsFwd(o) && LosesDelete(m, o, t, env)
    ensures !Paired(Forward(m, o, t, env).table)
  {
    var m' := Forward(m, o, t, env).table;
    if o in m && env.revDeleteFails {
      var r := RevTuple(o, m[o].addr, m[o].port);
      assert FwdPaired(m, o);
      assert r in m';
      assert !RevPaired(m', r);
    } else {
      var m0 := if o in m then DropStale(m, o, env) else m;
      var r := AttemptKey(o, t, env, FirstFree(m0, o, t, env, 0));
      assert r in m';
      assert !RevPaired(m', r);
    }
  }

  // ---- whole runs ----

  datatype Step = ForwardStep(o: Tuple, t: Target, env: Env) | ReplyStep(r: Tuple, env: Env) {
    predicate Valid() {
      if ForwardStep? then IsFwd(o) else IsRev(r)
    }
  }

  function Apply(m: Table, s: Step): Table {
    match s
    case ForwardStep(o, t, env) => Forward(m, o, t, env).table
    case ReplyStep(r, env) => Reply(m, r, env).table
  }

  function Run(m: Table, ss: seq<Step>): Table
    decreases |ss|
  {
    if ss == [] then m else Run(Apply(m, ss[0]), ss[1..])
  }

  predicate StepLosesDelete(m: Table, s: Step) {
    s.ForwardStep? && LosesDelete(m, s.o, s.t, s.env)
  }

  /** No step of the run loses a deletion, and every step has a well-formed key. */
  predicate Lossless(m: Table, ss: seq<Step>)
    decreases |ss|
  {
    ss != [] ==> ss[0].Valid() && !StepLosesDelete(m, ss[0]) && Lossless(Apply(m, ss[0]), ss[1..])
  }

  /** The halves stay exact inverses over every run without eviction and lost deletions. */
  lemma {:induction false} RunKeepsPairing(m: Table, ss: seq<Step>)
    requires Paired(m) && Lossless(m, ss)
    ensures Paired(Run(m, ss))
    decreases |ss|
  {
    if ss != [] {
      StepKeepsPairing(m, ss[0]);
      RunKeepsPairing(Apply(m, ss[0]), ss[1..]);
    }
  }

  lemma StepKeepsPairing(m: Table, s: Step)
    requires Paired(m) && s.Valid() && !StepLosesDelete(m, s)
    ensures Paired(Apply(m, s))
  {
    match s {
      case ForwardStep(o, t, env) => ForwardKeepsPairingIff(m, o, t, env);
      case ReplyStep(r, env) => if r in m { assert RevPaired(m, r); }
    }
  }

  /** From an empty table: exact inverses, and no two flows collide, after any run. */
  lemma SequentialPairing(ss: seq<Step>)
    requires Lossless(map[], ss)
    ensures Paired(Run(map[], ss)) && Exclusive(Run(map[], ss))
  {
    RunKeepsPairing(map[], ss);
    BackedIsExclusive(Run(map[], ss));
  }

  // ---- what a packet leaves alone ----

  /** A packet of flow `o` touches no key of another flow, and adds only keys of its own. */
  lemma ForwardFrame(m: Table, o: Tuple, t: Target, env: Env)
    requires IsFwd(o) && (o in m ==> FwdPaired(m, o))
    ensures var m' := Forward(m, o, t, env).table;
            && (forall k :: k in m && k != o && (IsRev(k) ==> FwdTuple(k, m[k]) != o) ==> k in m' && m'[k] == m[k])
            && (forall k :: k in m' && k !in m && k != o ==> IsRev(k) && FwdTuple(k, m'[k]) == o)
  {
  }

  /** Without eviction no forward entry ever loses its reverse entry, even when deletions are lost. */
  lemma ForwardKeepsBacked(m: Table, o: Tuple, t: Target, env: Env)
    requires Backed(m) && IsFwd(o)
    ensures Backed(Forward(m, o, t, env).table)
  {
  }

  /** A reply changes nothing but a missing forward entry, which it restores. */
  lemma ReplyKeepsBacked(m: Table, r: Tuple, env: Env)
    requires Backed(m) && IsRev(r)
    ensures var m' := Reply(m, r, env).table;
            && Backed(m')
            && (forall k :: k in m ==> k in m' && m'[k] == m[k])
            && (forall k :: k in m' && k !in m ==> IsFwd(k) && m'[k].addr == r.daddr && m'[k].port == r.dport)
  {
  }

  // ---- one flow among all others, whatever the rest of the table holds ----

  /** A packet of `p` that replaces a stale mapping and so deletes an entry of flow `o`. */
  predicate Displaces(m: Table, p: Tuple, t: Target, o: Tuple)
    requires o in m
  {
    && p in m && !Fresh(m[p], t)
    && (p == o || RevTuple(p, m[p].addr, m[p].port) == RevTuple(o, m[o].addr, m[o].port))
  }

  /** Both entries of a paired flow survive every packet that does not displace them. */
  lemma ForwardKeepsFlow(m: Table, p: Tuple, t: Target, env: Env, o: Tuple)
    requires IsFwd(o) && o in m && FwdPaired(m, o) && IsFwd(p) && !Displaces(m, p, t, o)
    ensures var m' := Forward(m, p, t, env).table;
            var r := RevTuple(o, m[o].addr, m[o].port);
            o in m' && m'[o] == m[o] && r in m' && m'[r] == m[r]
  {
    hide Swap16;
  }

  /** In a table without eviction only the flow itself can displace its entries. */
  lemma OthersDoNotDisplace(m: Table, p: Tuple, t: Target, o: Tuple)
    requires Backed(m) && IsFwd(o) && o in m && IsFwd(p) && p != o
    ensures !Displaces(m, p, t, o)
  {
    assert FwdPaired(m, o);
    assert p in m ==> FwdPaired(m, p);
  }

  /** The flow's reverse key, if it is there at all, is the flow's own. */
  predicate Unclaimed(m: Table, o: Tuple) {
    o in m && RevTuple(o, m[o].addr, m[o].port) in m ==> FwdPaired(m, o)
  }

  /**
   A translated packet leaves with the target's address, and leaves its flow paired exactly when the
   mapping it reused, if any, was not claimed by another flow. The rest of the table may be anything.
   */
  lemma ForwardMakesFlow(m: Table, o: Tuple, t: Target, env: Env)
    requires IsFwd(o)
    ensures var out := Forward(m, o, t, env);
            && (out.ret == Ok ==>
                  && out.entry.Some? && o in out.table && out.table[o] == out.entry.value
                  && out.entry.value.addr == t.addr && out.entry.value.needsCt == t.needsCt
                  && (FwdPaired(out.table, o) <==> (o in m && Fresh(m[o], t) ==> Unclaimed(m, o)))
                  && (if o in m && Fresh(m[o], t) then out.entry.value == m[o] else Inside(t.range, Swap16(out.entry.value.port))))
            && (out.ret != Ok && (o in out.table || (o in m && Fresh(m[o], t))) ==> out.table == m)
  {
    var m0 := if o in m && !Fresh(m[o], t) then DropStale(m, o, env) else m;
    Swap16Twice(Candidate(t, Swap16(o.sport), env, FirstFree(m0, o, t, env, 0)));
    hide Swap16;
  }

  // ---- repair of an evicted half ----

  lemma OtherFlowKeepsPairedBut(m: Table, o: Tuple, t: Target, env: Env, but: set<Tuple>)
    requires PairedBut(m, but) && IsFwd(o) && o !in but
    requires forall r :: r in but && r in m && IsRev(r) ==> FwdTuple(r, m[r]) != o
    requires !LosesDelete(m, o, t, env)
    ensures PairedBut(Forward(m, o, t, env).table, but)
  {
    if o in m { assert FwdPaired(m, o); }
    if !(t.needsCt && env.ctFails) && !(o in m && (Fresh(m[o], t) || env.deleteFails)) {
      var m' := if o in m then DropStale(m, o, env) else m;
      if o in m { DropStalePairs(m, o, env, but); }
      if FirstFree(m', o, t, env, 0) < RETRIES { AllocatePairs(m', o, t, env, but); }
    }
  }

  /** The table right after the reverse half of flow `o` was lost, and while others run on. */
  ghost predicate ReverseLost(m: Table, o: Tuple, e: NatEntry) {
    && IsFwd(o) && PairedBut(m, {o}) && o in m && m[o] == e
    && var r := RevTuple(o, e.addr, e.port);
       r in m ==> FwdTuple(r, m[r]) != o
  }

  /** The table right after the forward half belonging to reverse key `r` was lost. */
  ghost predicate ForwardLost(m: Table, r: Tuple, e: NatEntry) {
    IsRev(r) && PairedBut(m, {r}) && r in m && m[r] == e && FwdTuple(r, e) !in m
  }

  /** No packet of flow `o` itself; replies under any key may arrive. */
  predicate NoPacketOf(ss: seq<Step>, o: Tuple) {
    forall i :: 0 <= i < |ss| && ss[i].ForwardStep? ==> ss[i].o != o
  }

  /** No reply under key `r`. */
  predicate NoReplyTo(ss: seq<Step>, r: Tuple) {
    forall i :: 0 <= i < |ss| && ss[i].ReplyStep? ==> ss[i].r != r
  }

  lemma {:induction false} OthersKeepReverseLost(m: Table, ss: seq<Step>, o: Tuple, e: NatEntry)
    requires ReverseLost(m, o, e) && Lossless(m, ss) && NoPacketOf(ss, o)
    ensures ReverseLost(Run(m, ss), o, e)
    decreases |ss|
  {
    if ss != [] {
      match ss[0] {
        case ForwardStep(o', t, env) =>
          OtherFlowKeepsPairedBut(m, o', t, env, {o});
          if o' in m { assert FwdPaired(m, o'); }
          ForwardFrame(m, o', t, env);
        case ReplyStep(r', env) =>
          if r' in m { assert RevPaired(m, r'); }
      }
      OthersKeepReverseLost(Apply(m, ss[0]), ss[1..], o, e);
    }
  }

  lemma {:induction false} OthersKeepForwardLost(m: Table, ss: seq<Step>, r: Tuple, e: NatEntry)
    requires ForwardLost(m, r, e) && Lossless(m, ss) && NoPacketOf(ss, FwdTuple(r, e)) && NoReplyTo(ss, r)
    ensures ForwardLost(Run(m, ss), r, e)
    decreases |ss|
  {
    if ss != [] {
      match ss[0] {
        case ForwardStep(o', t, env) =>
          OtherFlowKeepsPairedBut(m, o', t, env, {r});
          if o' in m { assert FwdPaired(m, o'); }
          ForwardFrame(m, o', t, env);
        case ReplyStep(r', env) =>
          if r' in m { assert RevPaired(m, r'); }
      }
      OthersKeepForwardLost(Apply(m, ss[0]), ss[1..], r, e);
    }
  }

  /**
   A lost reverse entry comes back with the flow's next packet, however many packets of other
   flows and replies of any flow pass in between, exactly when no other flow took the reverse key.
   */
  lemma RepairReverseIff(m0: Table, o: Tuple, ss: seq<Step>, t: Target, env: Env)
    requires Paired(m0) && IsFwd(o) && o in m0
    requires var r := RevTuple(o, m0[o].addr, m0[o].port);
             Lossless(m0 - {r}, ss) && NoPacketOf(ss, o)
    requires Fresh(m0[o], t) && !(t.needsCt && env.ctFails) && !env.repairFails
    ensures var r := RevTuple(o, m0[o].addr, m0[o].port);
            var m := Run(m0 - {r}, ss);
            var m' := Forward(m, o, t, env).table;
            && (Paired(m') <==> r !in m)
            && (r !in m ==> m' == m[r := m0[r].(created := env.now)])
  {
    var e := m0[o];
    var r := RevTuple(o, e.addr, e.port);
    assert FwdPaired(m0, o);
    EvictReverse(m0, o);
    OthersKeepReverseLost(m0 - {r}, ss, o, e);
    var m := Run(m0 - {r}, ss);
    var m' := Forward(m, o, t, env).table;
    if r in m {
      assert !FwdPaired(m', o);
    } else {
      assert m'[r].needsCt == m0[r].needsCt;
      forall f | f in m' && IsFwd(f) ensures FwdPaired(m', f) {
        if f != o { assert FwdPaired(m, f); }
      }
      forall q | q in m' && IsRev(q) ensures RevPaired(m', q) {
        if q != r { assert RevPaired(m, q); }
      }
    }
  }

  lemma EvictReverse(m0: Table, o: Tuple)
    requires Paired(m0) && IsFwd(o) && o in m0
    ensures ReverseLost(m0 - {RevTuple(o, m0[o].addr, m0[o].port)}, o, m0[o])
  {
  }

  /** No helper fails. */
  predicate Smooth(env: Env) {
    env.reserveFails == {} && !env.publishFails && !env.deleteFails && !env.repairFails && !env.ctFails
  }

  lemma FirstPacketKeepsPort(m: Table, o: Tuple, t: Target, env: Env)
    requires Smooth(env) && o !in m && Inside(t.range, Swap16(o.sport)) && RevTuple(o, t.addr, o.sport) !in m
    ensures var e := NatEntry(env.now, t.needsCt, t.addr, o.sport);
            Forward(m, o, t, env)
            == Outcome(m[RevTuple(o, t.addr, o.sport) := NatEntry(env.now, t.needsCt, o.saddr, o.sport)][o := e], Ok, Some(e))
  {
    Swap16Twice(o.sport);
    assert FirstFree(m, o, t, env, 0) == 0;
  }

  /**
   The key does get taken: after the eviction a flow of another host with the same source port is
   given it. The first flow's next packet still succeeds, but its replies now belong to the other.
   */
  lemma TakenKeyIsNotRepaired(o: Tuple, saddr: u32, t: Target, env: Env)
    requires IsFwd(o) && saddr != o.saddr && Inside(t.range, Swap16(o.sport)) && Smooth(env)
    ensures var m0 := Forward(map[], o, t, env).table;
            var r := RevTuple(o, t.addr, o.sport);
            var other := o.(saddr := saddr);
            var m := Run(m0 - {r}, [ForwardStep(other, t, env)]);
            && Paired(m0) && o in m0 && r in m0
            && r in m && FwdTuple(r, m[r]) == other
            && Forward(m, o, t, env).ret == Ok && !Paired(Forward(m, o, t, env).table)
  {
    var m0 := Forward(map[], o, t, env).table;
    var r := RevTuple(o, t.addr, o.sport);
    var other := o.(saddr := saddr);
    FirstPacketKeepsPort(map[], o, t, env);
    FirstPacketKeepsPort(m0 - {r}, other, t, env);
    var step := ForwardStep(other, t, env);
    assert [step][1..] == [];
    var m := Apply(m0 - {r}, step);
    assert Run(m0 - {r}, [step]) == Run(m, []) == m;
    assert !FwdPaired(m, o);
  }

  /** A lost forward entry always comes back with the flow's next reply. */
  lemma RepairForward(m0: Table, r: Tuple, ss: seq<Step>, env: Env)
    requires Paired(m0) && IsRev(r) && r in m0
    requires var o := FwdTuple(r, m0[r]);
             Lossless(m0 - {o}, ss) && NoPacketOf(ss, o) && NoReplyTo(ss, r)
    requires !env.repairFails
    ensures var o := FwdTuple(r, m0[r]);
            var m := Run(m0 - {o}, ss);
            var m' := Reply(m, r, env).table;
            && o in m0
            && Paired(m') && m' == m[o := m0[o].(created := env.now)]
  {
    var e := m0[r];
    var o := FwdTuple(r, e);
    assert RevPaired(m0, r);
    EvictForward(m0, r);
    OthersKeepForwardLost(m0 - {o}, ss, r, e);
    var m := Run(m0 - {o}, ss);
    var m' := Reply(m, r, env).table;
    forall f | f in m' && IsFwd(f) ensures FwdPaired(m', f) {
      if f != o { assert FwdPaired(m, f); }
    }
    forall q | q in m' && IsRev(q) ensures RevPaired(m', q) {
      if q != r { assert RevPaired(m, q); }
    }
  }

  lemma EvictForward(m0: Table, r: Tuple)
    requires Paired(m0) && IsRev(r) && r in m0
    ensures ForwardLost(m0 - {FwdTuple(r, m0[r])}, r, m0[r])
  {
  }
}
