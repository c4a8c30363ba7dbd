/**
 Port allocation and reply-side repair of bpf/lib/nat.h on any number of CPUs. Each map helper is one atomic step,
 and the steps of different CPUs interleave freely.
 */
module SnatConcurrent {
  import opened Net
  import opened PortRange
  import opened Snat

  /**
   Where a CPU stands; `e` is the forward entry it is about to publish, or the reverse entry that a
   reply with key `r` read.
   */
  datatype Pc =
    | Idle
    | Searching(o: Tuple, t: Target)
    | Reserved(o: Tuple, e: NatEntry)
    | RollingBack(o: Tuple, e: NatEntry)
    | Answering(r: Tuple, e: NatEntry)
    | Repairing(r: Tuple, e: NatEntry)
  {
    predicate Holds() {
      Reserved? || RollingBack?
    }

    /** The reverse key this CPU inserted and has neither published nor rolled back. */
    function Key(): Tuple
      requires Holds()
    {
      RevTuple(o, e.addr, e.port)
    }
  }

  datatype Sys = Sys(table: Table, cpus: map<nat, Pc>)

  datatype Action =
    | Start(cpu: nat, o: Tuple, t: Target)          // the forward lookup missed
    | Reserve(cpu: nat, port: u16, now: u64)        // an attempt's BPF_NOEXIST insert succeeded
    | GiveUp(cpu: nat)                              // no attempt succeeded
    | Publish(cpu: nat)                             // the forward insert succeeded
    | PublishFails(cpu: nat)                        // the forward insert failed
    | Rollback(cpu: nat)                            // the reverse entry is deleted again
    | RollbackFails(cpu: nat)                       // its deletion failed
    | Answer(cpu: nat, r: Tuple)                    // a reply found its reverse entry
    | Miss(cpu: nat)                                // and then no forward entry
    | Repair(cpu: nat, now: u64)                    // which is inserted
    | Done(cpu: nat)                                // or was there, or the insert failed

  predicate Enabled(s: Sys, a: Action) {
    && a.cpu in s.cpus
    && var pc := s.cpus[a.cpu];
       match a
       case Start(_, o, t) => pc.Idle? && IsFwd(o) && o !in s.table
       case Reserve(_, port, _) => pc.Searching? && RevTuple(pc.o, pc.t.addr, port) !in s.table
       case GiveUp(_) => pc.Searching?
       case Publish(_) => pc.Reserved?
       case PublishFails(_) => pc.Reserved?
       case Rollback(_) => pc.RollingBack?
       case RollbackFails(_) => pc.RollingBack?
       case Answer(_, r) => pc.Idle? && IsRev(r) && r in s.table
       case Miss(_) => pc.Answering? && FwdTuple(pc.r, pc.e) !in s.table
       case Repair(_, _) => pc.Repairing?
       case Done(_) => pc.Answering? || pc.Repairing?
  }

  /** The forward entry that a reply under key `r` puts back. */
  function RepairEntry(r: Tuple, e: NatEntry, now: u64): NatEntry {
    NatEntry(now, e.needsCt, r.daddr, r.dport)
  }

  function Next(s: Sys, a: Action): Sys
    requires Enabled(s, a)
  {
    var pc := s.cpus[a.cpu];
    match a
    case Start(c, o, t) => s.(cpus := s.cpus[c := Searching(o, t)])
    case Reserve(c, port, now) =>
      Sys(s.table[RevTuple(pc.o, pc.t.addr, port) := NatEntry(now, pc.t.needsCt, pc.o.saddr, pc.o.sport)],
          s.cpus[c := Reserved(pc.o, NatEntry(now, pc.t.needsCt, pc.t.addr, port))])
    case GiveUp(c) => s.(cpus := s.cpus[c := Idle])
    case Publish(c) => Sys(s.table[pc.o := pc.e], s.cpus[c := Idle])
    case PublishFails(c) => s.(cpus := s.cpus[c := RollingBack(pc.o, pc.e)])
    case Rollback(c) => Sys(s.table - {pc.Key()}, s.cpus[c := Idle])
    case RollbackFails(c) => s.(cpus := s.cpus[c := Idle])
    case Answer(c, r) => s.(cpus := s.cpus[c := Answering(r, s.table[r])])
    case Miss(c) => s.(cpus := s.cpus[c := Repairing(pc.r, pc.e)])
    case Repair(c, now) => Sys(s.table[FwdTuple(pc.r, pc.e) := RepairEntry(pc.r, pc.e, now)], s.cpus[c := Idle])
    case Done(c) => s.(cpus := s.cpus[c := Idle])
  }

  // ---- what every step keeps ----

  /** The reverse key of a CPU in flight is in the table and points at the flow it allocates for. */
  predicate HolderOk(s: Sys, c: nat)
    requires c in s.cpus && s.cpus[c].Holds()
  {
    var pc := s.cpus[c];
    var r := pc.Key();
    && IsFwd(pc.o) && r in s.table
    && FwdTuple(r, s.table[r]) == pc.o && s.table[r].needsCt == pc.e.needsCt
  }

  ghost predicate Inv(s: Sys) {
    && (forall k :: k in s.table ==> IsFwd(k) || IsRev(k))
    && (forall c :: c in s.cpus && s.cpus[c].Holds() ==> HolderOk(s, c))
    && (forall c :: c in s.cpus && s.cpus[c].Searching? ==> IsFwd(s.cpus[c].o))
    && (forall c :: c in s.cpus && (s.cpus[c].Answering? || s.cpus[c].Repairing?) ==> IsRev(s.cpus[c].r))
    && (forall c, d :: c in s.cpus && d in s.cpus && c != d && s.cpus[c].Holds() && s.cpus[d].Holds()
                       ==> s.cpus[c].Key() != s.cpus[d].Key())
  }

  lemma NextKeepsInv(s: Sys, a: Action)
    requires Inv(s) && Enabled(s, a)
    ensures Inv(Next(s, a))
  {
    var s' := Next(s, a);
    forall c | c in s'.cpus && s'.cpus[c].Holds() ensures HolderOk(s', c) { NextHolder(s, a, c); }
    forall c, d | c in s'.cpus && d in s'.cpus && c != d && s'.cpus[c].Holds() && s'.cpus[d].Holds()
      ensures s'.cpus[c].Key() != s'.cpus[d].Key()
    {
      NextDistinct(s, a, c, d);
    }
    assert forall k :: k in s'.table ==> IsFwd(k) || IsRev(k) by {
      if a.Publish? { assert HolderOk(s, a.cpu); }
    }
  }

  lemma NextHolder(s: Sys, a: Action, c: nat)
    requires Inv(s) && Enabled(s, a) && c in s.cpus && Next(s, a).cpus[c].Holds()
    ensures HolderOk(Next(s, a), c)
  {
  }

  lemma NextDistinct(s: Sys, a: Action, c: nat, d: nat)
    requires Inv(s) && Enabled(s, a) && c in s.cpus && d in s.cpus && c != d
    requires Next(s, a).cpus[c].Holds() && Next(s, a).cpus[d].Holds()
    ensures Next(s, a).cpus[c].Key() != Next(s, a).cpus[d].Key()
  {
  }

  // ---- the steps that break the backing ----

  /** The flow of a CPU in flight is in the table under the very key the CPU holds. */
  predicate HoldsPublished(s: Sys, c: nat)
    requires c in s.cpus && s.cpus[c].Holds()
  {
    var pc := s.cpus[c];
    pc.o in s.table && RevTuple(pc.o, s.table[pc.o].addr, s.table[pc.o].port) == pc.Key()
  }

  /** What the reply read is still what its reverse key holds. */
  predicate StillThere(s: Sys, r: Tuple, e: NatEntry) {
    r in s.table && FwdTuple(r, s.table[r]) == FwdTuple(r, e) && s.table[r].needsCt == e.needsCt
  }

  /** A rollback under a repaired flow, and a repair whose reverse entry has gone in the meantime. */
  predicate Breaks(s: Sys, a: Action)
    requires Enabled(s, a)
  {
    match a
    case Rollback(c) => HoldsPublished(s, c)
    case Repair(c, _) => !StillThere(s, s.cpus[c].r, s.cpus[c].e)
    case _ => false
  }

  /** Exactly these steps take a flow's reverse entry away. */
  lemma NextBackedIff(s: Sys, a: Action)
    requires Inv(s) && Backed(s.table) && Enabled(s, a)
    ensures Backed(Next(s, a).table) <==> !Breaks(s, a)
  {
    var s' := Next(s, a);
    if Breaks(s, a) {
      var pc := s.cpus[a.cpu];
      var o := if a.Rollback? then pc.o else FwdTuple(pc.r, pc.e);
      if a.Rollback? { assert HolderOk(s, a.cpu); }
      assert o in s'.table && IsFwd(o) && !FwdPaired(s'.table, o);
    } else {
      forall o | o in s'.table && IsFwd(o) ensures FwdPaired(s'.table, o) { NextBacks(s, a, o); }
    }
  }

  lemma NextBacks(s: Sys, a: Action, o: Tuple)
    requires Inv(s) && Backed(s.table) && Enabled(s, a) && !Breaks(s, a) && o in Next(s, a).table && IsFwd(o)
    ensures FwdPaired(Next(s, a).table, o)
  {
  }

  // ---- whole interleavings ----

  ghost predicate Possible(s: Sys, acts: seq<Action>)
    decreases |acts|
  {
    acts != [] ==> Enabled(s, acts[0]) && Possible(Next(s, acts[0]), acts[1..])
  }

  ghost function Exec(s: Sys, acts: seq<Action>): Sys
    requires Possible(s, acts)
    decreases |acts|
  {
    if acts == [] then s else Exec(Next(s, acts[0]), acts[1..])
  }

  ghost predicate Init(s: Sys) {
    s.table == map[] && forall c :: c in s.cpus ==> s.cpus[c].Idle?
  }

  /** No step of the interleaving breaks the backing. */
  ghost predicate Intact(s: Sys, acts: seq<Action>)
    requires Possible(s, acts)
    decreases |acts|
  {
    acts != [] ==> !Breaks(s, acts[0]) && Intact(Next(s, acts[0]), acts[1..])
  }

  /** Every published flow has its reverse entry in every state of the interleaving. */
  ghost predicate AlwaysBacked(s: Sys, acts: seq<Action>)
    requires Possible(s, acts)
    decreases |acts|
  {
    Backed(s.table) && (acts != [] ==> AlwaysBacked(Next(s, acts[0]), acts[1..]))
  }

  lemma {:induction false} AlwaysBackedIff(s: Sys, acts: seq<Action>)
    requires Inv(s) && Backed(s.table) && Possible(s, acts)
    ensures AlwaysBacked(s, acts) <==> Intact(s, acts)
    ensures Intact(s, acts) ==> Backed(Exec(s, acts).table)
    decreases |acts|
  {
    hide Inv, Breaks, Backed, Next, Enabled;
    if acts != [] {
      NextKeepsInv(s, acts[0]);
      NextBackedIff(s, acts[0]);
      if !Breaks(s, acts[0]) {
        AlwaysBackedIff(Next(s, acts[0]), acts[1..]);
      } else {
        assert acts[1..] == [] ==> !AlwaysBacked(Next(s, acts[0]), []);
      }
    }
  }

  /**
   Allocation and reply-side repair on every number of CPUs, in every interleaving: all flows stay
   backed exactly when no rollback hits a repaired flow and no repair comes too late. Two flows to one
   remote endpoint then use different external addresses or ports.
   */
  lemma InterleavedRepairIsSafeIff(s0: Sys, acts: seq<Action>)
    requires Init(s0) && Possible(s0, acts)
    ensures AlwaysBacked(s0, acts) <==> Intact(s0, acts)
    ensures Intact(s0, acts) ==> Exclusive(Exec(s0, acts).table)
  {
    AlwaysBackedIff(s0, acts);
    if Intact(s0, acts) {
      BackedIsExclusive(Exec(s0, acts).table);
    }
  }

  // ---- allocation alone ----

  /** Without repair, no published flow uses a key that a CPU in flight holds. */
  ghost predicate AllocInv(s: Sys) {
    && Inv(s) && Backed(s.table)
    && (forall c :: c in s.cpus && s.cpus[c].Holds() ==> !HoldsPublished(s, c))
  }

  lemma AllocationKeepsInv(s: Sys, a: Action)
    requires AllocInv(s) && Enabled(s, a) && !a.Repair?
    ensures AllocInv(Next(s, a)) && !Breaks(s, a)
  {
    hide Backed;
    NextKeepsInv(s, a);
    NextBackedIff(s, a);
    var s' := Next(s, a);
    forall c | c in s'.cpus && s'.cpus[c].Holds() ensures !HoldsPublished(s', c) { NextUnpublished(s, a, c); }
  }

  lemma NextUnpublished(s: Sys, a: Action, c: nat)
    requires AllocInv(s) && Enabled(s, a) && !a.Repair? && c in s.cpus && Next(s, a).cpus[c].Holds()
    ensures !HoldsPublished(Next(s, a), c)
  {
    if a.Publish? && c != a.cpu {
      assert s.cpus[c].Key() != s.cpus[a.cpu].Key();
    }
  }

  lemma {:induction false} AllocationIsIntact(s: Sys, acts: seq<Action>)
    requires AllocInv(s) && Possible(s, acts) && forall a :: a in acts ==> !a.Repair?
    ensures AllocInv(Exec(s, acts)) && Intact(s, acts)
    decreases |acts|
  {
    hide AllocInv, Breaks, Next, Enabled;
    if acts != [] {
      AllocationKeepsInv(s, acts[0]);
      AllocationIsIntact(Next(s, acts[0]), acts[1..]);
    }
  }

  /**
   After every interleaving of allocations on every number of CPUs, each published flow has its reverse
   entry and two flows to one remote endpoint use different external addresses or ports.
   */
  lemma InterleavedAllocationIsSafe(s0: Sys, acts: seq<Action>)
    requires Init(s0) && Possible(s0, acts) && forall a :: a in acts ==> !a.Repair?
    ensures AlwaysBacked(s0, acts)
    ensures Backed(Exec(s0, acts).table) && Exclusive(Exec(s0, acts).table)
  {
    AllocationIsIntact(s0, acts);
    AlwaysBackedIff(s0, acts);
    BackedIsExclusive(Exec(s0, acts).table);
  }

  /** In every state that allocations reach, a rollback removes a key that no published flow relies on. */
  lemma RollbackSparesPublished(s0: Sys, acts: seq<Action>, cpu: nat, o: Tuple)
    requires Init(s0) && Possible(s0, acts) && (forall a :: a in acts ==> !a.Repair?)
    requires Enabled(Exec(s0, acts), Rollback(cpu)) && o in Exec(s0, acts).table && IsFwd(o)
    ensures var s := Exec(s0, acts);
            var m' := Next(s, Rollback(cpu)).table;
            o in m' && m'[o] == s.table[o] && FwdPaired(m', o)
  {
    AllocationIsIntact(s0, acts);
    var s := Exec(s0, acts);
    AllocationKeepsInv(s, Rollback(cpu));
    assert HolderOk(s, cpu);
  }

  // ---- the sequential allocator is one interleaving ----

  /** The steps that one undisturbed CPU takes for `Allocate`. */
  ghost function SoloSteps(m: Table, cpu: nat, o: Tuple, t: Target, env: Env): seq<Action> {
    var k := FirstFree(m, o, t, env, 0);
    [Start(cpu, o, t)] +
    if k == RETRIES then [GiveUp(cpu)]
    else [Reserve(cpu, Swap16(Candidate(t, Swap16(o.sport), env, k)), env.now)] +
         if env.publishFails then [PublishFails(cpu), if env.rollbackFails then RollbackFails(cpu) else Rollback(cpu)]
         else [Publish(cpu)]
  }

  lemma SoloRunIsAllocate(s: Sys, cpu: nat, o: Tuple, t: Target, env: Env)
    requires cpu in s.cpus && s.cpus[cpu].Idle? && IsFwd(o) && o !in s.table
    ensures var acts := SoloSteps(s.table, cpu, o, t, env);
            Possible(s, acts) && Exec(s, acts) == Sys(Allocate(s.table, o, t, env).table, s.cpus)
  {
    hide Swap16, Candidate, FirstFree;
    var k := FirstFree(s.table, o, t, env, 0);
    var s1 := Next(s, Start(cpu, o, t));
    if k == RETRIES {
      var rest := [GiveUp(cpu)];
      Last(s1, GiveUp(cpu));
      Prepend(s, Start(cpu, o, t), rest);
      assert Next(s1, GiveUp(cpu)).cpus == s.cpus;
    } else {
      var port := Swap16(Candidate(t, Swap16(o.sport), env, k));
      var s2 := Next(s1, Reserve(cpu, port, env.now));
      var undo := if env.rollbackFails then RollbackFails(cpu) else Rollback(cpu);
      var rest := if env.publishFails then [PublishFails(cpu), undo] else [Publish(cpu)];
      if env.publishFails {
        SoloRollback(s2, cpu, undo);
        assert s2.table - {s2.cpus[cpu].Key()} == s.table;
      } else {
        Last(s2, Publish(cpu));
      }
      Prepend(s1, Reserve(cpu, port, env.now), rest);
      Prepend(s, Start(cpu, o, t), [Reserve(cpu, port, env.now)] + rest);
      assert s2.cpus[cpu := Idle] == s.cpus;
    }
  }

  lemma SoloRollback(s: Sys, cpu: nat, undo: Action)
    requires Enabled(s, PublishFails(cpu)) && (undo == Rollback(cpu) || undo == RollbackFails(cpu))
    ensures Possible(s, [PublishFails(cpu), undo])
    ensures Exec(s, [PublishFails(cpu), undo])
         == Sys(if undo.Rollback? then s.table - {s.cpus[cpu].Key()} else s.table, s.cpus[cpu := Idle])
  {
    var s1 := Next(s, PublishFails(cpu));
    Last(s1, undo);
    Prepend(s, PublishFails(cpu), [undo]);
    assert [PublishFails(cpu)] + [undo] == [PublishFails(cpu), undo];
    assert s1.cpus[cpu := Idle] == s.cpus[cpu := Idle];
  }

  lemma Last(s: Sys, a: Action)
    requires Enabled(s, a)
    ensures Possible(s, [a]) && Exec(s, [a]) == Next(s, a)
  {
  }

  lemma Prepend(s: Sys, a: Action, rest: seq<Action>)
    requires Enabled(s, a) && Possible(Next(s, a), rest)
    ensures Possible(s, [a] + rest) && Exec(s, [a] + rest) == Exec(Next(s, a), rest)
  {
  }

  // ---- a reply during a reservation ----

  ghost predicate HeldBy(s: Sys, c: nat, r: Tuple) {
    c in s.cpus && s.cpus[c].Holds() && s.cpus[c].Key() == r
  }

  /** A reverse entry is held by a CPU in flight or belongs to a published flow. */
  ghost predicate Accounted(s: Sys) {
    forall r :: r in s.table && IsRev(r) ==> FwdTuple(r, s.table[r]) in s.table || exists c :: HeldBy(s, c, r)
  }

  lemma NextAccounts(s: Sys, a: Action, r: Tuple)
    requires Inv(s) && Accounted(s) && Enabled(s, a) && !a.RollbackFails? && r in Next(s, a).table && IsRev(r)
    ensures FwdTuple(r, Next(s, a).table[r]) in Next(s, a).table || exists c :: HeldBy(Next(s, a), c, r)
  {
    var s' := Next(s, a);
    if r !in s.table {
      assert HeldBy(s', a.cpu, r);
    } else if FwdTuple(r, s.table[r]) !in s.table {
      var c :| HeldBy(s, c, r);
      assert HolderOk(s, c);
      if c != a.cpu || a.PublishFails? {
        assert HeldBy(s', c, r);
      }
    }
  }

  lemma {:induction false} ExecAccounts(s: Sys, acts: seq<Action>)
    requires Inv(s) && Accounted(s) && Possible(s, acts) && forall a :: a in acts ==> !a.RollbackFails?
    ensures Inv(Exec(s, acts)) && Accounted(Exec(s, acts))
    decreases |acts|
  {
    hide Inv, Next, Enabled, HeldBy;
    if acts != [] {
      NextKeepsInv(s, acts[0]);
      var s' := Next(s, acts[0]);
      forall r | r in s'.table && IsRev(r)
        ensures FwdTuple(r, s'.table[r]) in s'.table || exists c :: HeldBy(s', c, r)
      {
        NextAccounts(s, acts[0], r);
      }
      ExecAccounts(s', acts[1..]);
    }
  }

  /** A repair by CPU `d` while CPU `c` holds the reverse key `r`, and the rollback of `c`. */
  ghost function RepairAndRollback(s: Sys, d: nat, r: Tuple, now: u64, c: nat): seq<Action>
    requires c in s.cpus
  {
    [Answer(d, r), Miss(d), Repair(d, now)] + if s.cpus[c].Reserved? then [PublishFails(c), Rollback(c)] else [Rollback(c)]
  }

  /**
   Unless a rollback failed, a reply finds its forward half missing only while a CPU still holds the
   reverse key. If that CPU then rolls back, the repaired flow is left without reverse entry.
   */
  lemma RepairDuringReserveBreaks(s0: Sys, acts: seq<Action>, r: Tuple, now: u64, d: nat)
    returns (c: nat)
    requires Init(s0) && Possible(s0, acts) && (forall a :: a in acts ==> !a.RollbackFails?)
    requires var m := Exec(s0, acts).table; r in m && IsRev(r) && FwdTuple(r, m[r]) !in m
    requires var s := Exec(s0, acts); d in s.cpus && s.cpus[d].Idle?
    ensures var s := Exec(s0, acts);
            && HeldBy(s, c, r)
            && var more := RepairAndRollback(s, d, r, now, c);
               Possible(s, more) && !Backed(Exec(s, more).table)
  {
    ExecAccounts(s0, acts);
    var s := Exec(s0, acts);
    c :| HeldBy(s, c, r);
    assert HolderOk(s, c);
    RepairStrandsFlow(s, d, r, now, c);
  }

  lemma RepairStrandsFlow(s: Sys, d: nat, r: Tuple, now: u64, c: nat)
    requires d in s.cpus && s.cpus[d].Idle? && HeldBy(s, c, r) && r in s.table && IsRev(r)
    requires FwdTuple(r, s.table[r]) !in s.table
    ensures var more := RepairAndRollback(s, d, r, now, c);
            Possible(s, more) && !Backed(Exec(s, more).table)
  {
    var rest := if s.cpus[c].Reserved? then [PublishFails(c), Rollback(c)] else [Rollback(c)];
    var s1 := Next(s, Answer(d, r));
    var s2 := Next(s1, Miss(d));
    var s3 := Next(s2, Repair(d, now));
    if s.cpus[c].Reserved? {
      SoloRollback(s3, c, Rollback(c));
    } else {
      Last(s3, Rollback(c));
    }
    Prepend(s2, Repair(d, now), rest);
    Prepend(s1, Miss(d), [Repair(d, now)] + rest);
    Prepend(s, Answer(d, r), [Miss(d)] + ([Repair(d, now)] + rest));
    assert [Answer(d, r)] + ([Miss(d)] + ([Repair(d, now)] + rest)) == RepairAndRollback(s, d, r, now, c);
    var o, m := FwdTuple(r, s.table[r]), Exec(s3, rest).table;
    assert o in m && IsFwd(o) && !FwdPaired(m, o);
  }

  /** Such a state is two steps away from an empty table. */
  lemma ReservationIsReachable(o: Tuple, t: Target, port: u16, now: u64)
    requires IsFwd(o)
    ensures var s0 := Sys(map[], map[0 := Idle, 1 := Idle]);
            var acts := [Start(0, o, t), Reserve(0, port, now)];
            var r := RevTuple(o, t.addr, port);
            && Init(s0) && Possible(s0, acts)
            && var s := Exec(s0, acts);
               r in s.table && IsRev(r) && FwdTuple(r, s.table[r]) !in s.table && 1 in s.cpus && s.cpus[1].Idle?
  {
    var s0 := Sys(map[], map[0 := Idle, 1 := Idle]);
    var s1 := Next(s0, Start(0, o, t));
    Last(s1, Reserve(0, port, now));
    Prepend(s0, Start(0, o, t), [Reserve(0, port, now)]);
    assert [Start(0, o, t)] + [Reserve(0, port, now)] == [Start(0, o, t), Reserve(0, port, now)];
  }
}
