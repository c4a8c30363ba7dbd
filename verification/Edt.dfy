/**
 Earliest-departure-time pacing of bpf/lib/edt.h. All times are 64-bit nanoseconds, and the
 source's 64-bit sums wrap.
 */
module Edt {
  import opened Net

  const NSEC_PER_SEC := 1_000_000_000

  datatype Info = Info(bps: u64, tLast: u64, horizon: u64, prio: u32)

  datatype Skb = Skb(wireLen: u32, tstamp: u64, queueMapping: u16, priority: u32)

  datatype Verdict = Sent | DropHorizon

  function Max(a: u64, b: u64): u64 {
    if a < b then b else a
  }

  function Delay(wireLen: u32, bps: u64): u64
    requires bps > 0
    ensures Delay(wireLen, bps) < 0x4000_0000_0000_0000
  {
    DelayBound(wireLen * NSEC_PER_SEC, bps);
    wireLen * NSEC_PER_SEC / bps
  }

  lemma MulAtLeast(d: int, q: int)
    requires 0 < d && 0 <= q
    ensures d * q >= q
  {
  }

  lemma DelayBound(n: nat, d: nat)
    requires 0 < d
    ensures 0 <= n / d <= n
    ensures d * (n / d) <= n <= d * (n / d) + d - 1
  {
    MulAtLeast(d, n / d);
  }

  function WithPriority(s: Skb, info: Info): Skb {
    if info.prio != 0 then s.(priority := info.prio - 1) else s
  }

  /** The step on one aggregate's state. */
  datatype Outcome = Outcome(info: Info, skb: Skb, verdict: Verdict)

  function Depart(info: Info, s: Skb, now: u64): Outcome {
    if info.bps == 0 then Outcome(info, WithPriority(s, info), Sent)
    else
      var t := Max(s.tstamp, now);
      var next := (info.tLast + Delay(s.wireLen, info.bps)) % U64;
      if next <= t then Outcome(info.(tLast := t), s, Sent)
      else if next - now >= info.horizon then Outcome(info, s, DropHorizon)
      else Outcome(info.(tLast := next), WithPriority(s.(tstamp := next), info), Sent)
  }

  // ---- the imperative form ----

  class Throttle {
    var aggregates: map<u32, Info>

    constructor ()
      ensures aggregates == map[]
    {
      aggregates := map[];
    }

    /** edt_sched_departure; `ip` says whether the packet is IPv4 or IPv6. */
    method SchedDeparture(s: Skb, ip: bool, now: u64) returns (skb: Skb, verdict: Verdict)
      modifies this
      ensures var id := s.queueMapping;
              if !ip then skb == s && verdict == Sent && aggregates == old(aggregates)
              else if id == 0 || id !in old(aggregates) then
                skb == s.(queueMapping := 0) && verdict == Sent && aggregates == old(aggregates)
              else
                var out := Depart(old(aggregates)[id], s.(queueMapping := 0), now);
                skb == out.skb && verdict == out.verdict && aggregates == old(aggregates)[id := out.info]
    {
      skb, verdict := s, Sent;
      if !ip {
        return;
      }
      var id := skb.queueMapping;
      skb := skb.(queueMapping := 0);
      if id == 0 || id !in aggregates {
        return;
      }
      var info := aggregates[id];
      if info.bps != 0 {
        var t := skb.tstamp;
        if t < now {
          t := now;
        }
        var delay := Delay(skb.wireLen, info.bps);
        var next := (info.tLast + delay) % U64;
        if next <= t {
          aggregates := aggregates[id := info.(tLast := t)];
          return;
        }
        if next - now >= info.horizon {
          verdict := DropHorizon;
          assert aggregates[id := info] == aggregates;
          return;
        }
        aggregates := aggregates[id := info.(tLast := next)];
        skb := skb.(tstamp := next);
      } else {
        assert aggregates[id := info] == aggregates;
      }
      if info.prio != 0 {
        skb := skb.(priority := info.prio - 1);
      }
    }
  }

  // ---- one packet ----

  /**
   A dropped packet changes nothing. A sent one leaves at the time now stored in t_last, at or after
   `now`, and a time stamp that was written lies strictly between now and the horizon.
   */
  lemma DepartureTime(info: Info, s: Skb, now: u64)
    requires info.bps > 0
    ensures var out := Depart(info, s, now);
            if out.verdict == DropHorizon then out.info == info && out.skb == s
            else
              && out.info == info.(tLast := Max(out.skb.tstamp, now))
              && (out.skb.tstamp != s.tstamp ==> now < out.skb.tstamp < now + info.horizon)
  {
  }

  /** The 64-bit sum in front of the comparison does not wrap. */
  predicate NoWrap(info: Info, s: Skb) {
    info.bps > 0 ==> info.tLast + Delay(s.wireLen, info.bps) < U64
  }

  /** Departures are spaced by the packet's serialization time exactly when the sum does not wrap. */
  lemma SpacedIffNoWrap(info: Info, s: Skb, now: u64)
    requires info.bps > 0 && Depart(info, s, now).verdict == Sent
    ensures Depart(info, s, now).info.tLast >= info.tLast + Delay(s.wireLen, info.bps) <==> NoWrap(info, s)
  {
  }

  /** A wrapped sum lets a packet leave at once although the aggregate's last departure is far ahead. */
  lemma WrapSendsEarly(s: Skb)
    requires s.wireLen == 1 && s.tstamp == 0
    ensures var info := Info(1, U64 - NSEC_PER_SEC, 0, 0);
            Depart(info, s, 0).verdict == Sent && Depart(info, s, 0).info.tLast == 0
  {
  }

  // ---- runs ----

  datatype Arrival = Arrival(skb: Skb, now: u64)

  function RunInfo(info: Info, ps: seq<Arrival>): Info {
    if ps == [] then info
    else Depart(RunInfo(info, ps[..|ps| - 1]), ps[|ps| - 1].skb, ps[|ps| - 1].now).info
  }

  predicate SentLast(info: Info, ps: seq<Arrival>)
    requires ps != []
  {
    Depart(RunInfo(info, ps[..|ps| - 1]), ps[|ps| - 1].skb, ps[|ps| - 1].now).verdict == Sent
  }

  function SentCount(info: Info, ps: seq<Arrival>): nat {
    if ps == [] then 0
    else SentCount(info, ps[..|ps| - 1]) + if SentLast(info, ps) then 1 else 0
  }

  function SentBytes(info: Info, ps: seq<Arrival>): nat {
    if ps == [] then 0
    else SentBytes(info, ps[..|ps| - 1]) + if SentLast(info, ps) then ps[|ps| - 1].skb.wireLen else 0
  }

  /** The rate, horizon and priority of an aggregate are fixed by its configuration. */
  lemma {:induction false} RunKeepsRate(info: Info, ps: seq<Arrival>)
    ensures RunInfo(info, ps) == info.(tLast := RunInfo(info, ps).tLast)
  {
    if ps != [] {
      RunKeepsRate(info, ps[..|ps| - 1]);
    }
  }

  /** No sum wraps for a packet that is sent. */
  predicate RunNoWrap(info: Info, ps: seq<Arrival>) {
    ps != [] ==>
      && RunNoWrap(info, ps[..|ps| - 1])
      && (SentLast(info, ps) ==> NoWrap(RunInfo(info, ps[..|ps| - 1]), ps[|ps| - 1].skb))
  }

  /** Clock, time stamps and horizon below 2^63, which is 292 years. */
  predicate Sane(info: Info, ps: seq<Arrival>) {
    && info.tLast < 0x8000_0000_0000_0000
    && (forall i :: 0 <= i < |ps| ==>
          ps[i].skb.tstamp < 0x8000_0000_0000_0000 && ps[i].now + info.horizon <= 0x8000_0000_0000_0000
          && ps[i].now < 0x8000_0000_0000_0000)
  }

  lemma {:induction false} SaneNoWrap(info: Info, ps: seq<Arrival>)
    requires info.bps > 0 && Sane(info, ps)
    ensures RunNoWrap(info, ps) && RunInfo(info, ps).tLast < 0x8000_0000_0000_0000
  {
    hide Delay;
    if ps != [] {
      SaneNoWrap(info, ps[..|ps| - 1]);
      RunKeepsRate(info, ps[..|ps| - 1]);
    }
  }

  lemma WindowStep(bytes: int, len: int, n: int, bps: int, t0: int, t1: int, t2: int, delay: int)
    requires bytes * NSEC_PER_SEC + n <= bps * (t1 - t0 + n)
    requires len * NSEC_PER_SEC <= bps * delay + bps - 1 && t2 >= t1 + delay && bps > 0
    ensures (bytes + len) * NSEC_PER_SEC + n + 1 <= bps * (t2 - t0 + n + 1)
  {
  }

  /**
   The rate bound: over any run, the bytes sent fit into the time by which the departure clock
   advanced, up to one nanosecond a packet. A run may start in any state, so this is every window.
   */
  lemma {:induction false} PacingBound(info: Info, ps: seq<Arrival>)
    requires info.bps > 0 && RunNoWrap(info, ps)
    ensures RunInfo(info, ps).tLast >= info.tLast
    ensures SentBytes(info, ps) * NSEC_PER_SEC + SentCount(info, ps)
         <= info.bps * (RunInfo(info, ps).tLast - info.tLast + SentCount(info, ps))
  {
    if ps != [] {
      hide Delay, Depart;
      var before, p := ps[..|ps| - 1], ps[|ps| - 1];
      PacingBound(info, before);
      RunKeepsRate(info, before);
      var mid := RunInfo(info, before);
      DepartureTime(mid, p.skb, p.now);
      if SentLast(info, ps) {
        SpacedIffNoWrap(mid, p.skb, p.now);
        DelayIs(p.skb.wireLen, info.bps);
        WindowStep(SentBytes(info, before), p.skb.wireLen, SentCount(info, before), info.bps,
                   info.tLast, mid.tLast, RunInfo(info, ps).tLast, Delay(p.skb.wireLen, info.bps));
      }
    }
  }

  lemma DelayIs(wireLen: u32, bps: u64)
    requires bps > 0
    ensures wireLen * NSEC_PER_SEC <= bps * Delay(wireLen, bps) + bps - 1
  {
  }
}
