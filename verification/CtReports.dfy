/**
 Report throttling of bpf/lib/conntrack.h: how often __ct_update_timeout asks for a monitor
 notification over a whole run of calls on one entry.
 */
module CtReports {
  import opened Net
  import opened Conntrack

  datatype Call = Call(lifetime: u32, dir: Dir, flags: FlagByte, now: u32)

  /** The entry keeps one set of flags and one time stamp for ingress and one for the rest. */
  predicate SameSide(a: Dir, b: Dir) {
    (a == Ingress) == (b == Ingress)
  }

  function AfterCalls(e: Entry, c: Timeouts, cs: seq<Call>): Entry {
    if cs == [] then e
    else
      var k := cs[|cs| - 1];
      UpdateTimeout(AfterCalls(e, c, cs[..|cs| - 1]), c, k.lifetime, k.dir, k.flags, k.now)
  }

  /** How many of the calls on `d`'s side ask for a report. */
  function Reports(e: Entry, c: Timeouts, cs: seq<Call>, d: Dir): nat {
    if cs == [] then 0
    else
      var k := cs[|cs| - 1];
      var before := cs[..|cs| - 1];
      Reports(e, c, before, d)
      + if SameSide(k.dir, d) && ReportDue(AfterCalls(e, c, before), c, k.dir, k.now, k.flags) then 1 else 0
  }

  /** All masked flags passed on `d`'s side. */
  function Passed(c: Timeouts, cs: seq<Call>, d: Dir): FlagByte {
    if cs == [] then {}
    else
      var k := cs[|cs| - 1];
      Passed(c, cs[..|cs| - 1], d) + if SameSide(k.dir, d) then k.flags * c.reportFlags else {}
  }

  /** The stored flags are the union of everything passed, whether or not it was reported. */
  lemma {:induction false} FlagsAccumulate(e: Entry, c: Timeouts, cs: seq<Call>, d: Dir)
    ensures SeenFlags(AfterCalls(e, c, cs), d) == SeenFlags(e, d) + Passed(c, cs, d)
  {
    if cs != [] {
      FlagsAccumulate(e, c, cs[..|cs| - 1], d);
    }
  }

  /** A clock that does not run backwards, and is an interval away from wrapping at 32 bits. */
  predicate SteadyClock(c: Timeouts, cs: seq<Call>) {
    && (forall i, j :: 0 <= i <= j < |cs| ==> cs[i].now <= cs[j].now)
    && (forall i :: 0 <= i < |cs| ==> cs[i].now + c.reportInterval < U32)
  }

  /** Flags newly seen so far. */
  function Grown(e: Entry, c: Timeouts, cs: seq<Call>, d: Dir): int {
    |SeenFlags(AfterCalls(e, c, cs), d)| - |SeenFlags(e, d)|
  }

  lemma SubsetCard(a: FlagByte, b: FlagByte)
    requires a <= b
    ensures |a| <= |b| && (a != b ==> |a| < |b|)
  {
    var d := b - a;
    assert a + d == b && a !! d;
  }

  /** A report moves the time stamp and needs a new flag or an interval; anything else changes neither. */
  lemma CallStep(e: Entry, c: Timeouts, k: Call, d: Dir)
    requires k.now + c.reportInterval < U32
    ensures var e' := UpdateTimeout(e, c, k.lifetime, k.dir, k.flags, k.now);
            if SameSide(k.dir, d) && ReportDue(e, c, k.dir, k.now, k.flags) then
              && LastReport(e', d) == k.now
              && |SeenFlags(e, d)| <= |SeenFlags(e', d)|
              && (LastReport(e, d) <= k.now <= LastReport(e, d) + c.reportInterval
                  ==> |SeenFlags(e, d)| < |SeenFlags(e', d)|)
            else
              LastReport(e', d) == LastReport(e, d) && SeenFlags(e', d) == SeenFlags(e, d)
  {
    var seen := k.flags * c.reportFlags + SeenFlags(e, d);
    if SameSide(k.dir, d) && ReportDue(e, c, k.dir, k.now, k.flags) {
      assert SeenFlags(UpdateTimeout(e, c, k.lifetime, k.dir, k.flags, k.now), d) == seen;
      SubsetCard(SeenFlags(e, d), seen);
      if LastReport(e, d) <= k.now {
        DueByTimeIff(LastReport(e, d), c.reportInterval, k.now);
      }
    }
  }

  lemma MulStep(n: int, m: int, i: int)
    requires n <= m + 1 && 0 < i
    ensures n * i <= m * i + i
    ensures n <= m ==> n * i <= m * i
  {
    assert (m + 1 - n) * i >= 0;
    assert n <= m ==> (m - n) * i >= 0;
  }

  /** Every report after the first either saw a new flag or came more than an interval after its predecessor. */
  lemma {:induction false} ReportsPaidFor(e: Entry, c: Timeouts, cs: seq<Call>, d: Dir)
    requires SteadyClock(c, cs) && Reports(e, c, cs, d) > 0
    ensures var last := LastReport(AfterCalls(e, c, cs), d);
            && last <= cs[|cs| - 1].now
            && (Reports(e, c, cs, d) - Grown(e, c, cs, d) - 1) * (c.reportInterval + 1) <= last - cs[0].now
  {
    hide UpdateTimeout, ReportDue, SeenFlags, LastReport;
    var before, k := cs[..|cs| - 1], cs[|cs| - 1];
    var i := c.reportInterval + 1;
    CallStep(AfterCalls(e, c, before), c, k, d);
    var n := Reports(e, c, cs, d) - Grown(e, c, cs, d) - 1;
    if Reports(e, c, before, d) > 0 {
      ReportsPaidFor(e, c, before, d);
      MulStep(n, Reports(e, c, before, d) - Grown(e, c, before, d) - 1, i);
    } else {
      CallsGrow(e, c, before, d);
      MulStep(n, 0, i);
    }
  }

  lemma {:induction false} CallsGrow(e: Entry, c: Timeouts, cs: seq<Call>, d: Dir)
    ensures 0 <= Grown(e, c, cs, d) <= 8
  {
    FlagsAccumulate(e, c, cs, d);
    SubsetCard(SeenFlags(e, d), SeenFlags(AfterCalls(e, c, cs), d));
    SubsetCard(SeenFlags(AfterCalls(e, c, cs), d), BYTE);
  }

  lemma DivBound(n: int, i: int, t: int)
    requires 0 < i && n * i <= t
    ensures n <= t / i
  {
    assert t == i * (t / i) + t % i;
    assert (t / i + 1) * i == i * (t / i) + i;
    if n > t / i {
      MulStep(t / i + 1, n, i);
    }
  }

  /** At most nine reports plus one for each full interval that passes. */
  lemma ReportBound(e: Entry, c: Timeouts, cs: seq<Call>, d: Dir)
    requires cs != [] && SteadyClock(c, cs)
    ensures Reports(e, c, cs, d) <= 9 + (cs[|cs| - 1].now - cs[0].now) / (c.reportInterval + 1)
  {
    var i, t := c.reportInterval + 1, cs[|cs| - 1].now - cs[0].now;
    CallsGrow(e, c, cs, d);
    DivBound(0, i, t);
    if Reports(e, c, cs, d) > 0 {
      ReportsPaidFor(e, c, cs, d);
      DivBound(Reports(e, c, cs, d) - Grown(e, c, cs, d) - 1, i, t);
    }
  }

  /**
   Exactly when time alone makes a report due: more than an interval has passed, or the sum wrapped.
   The wrapped case is what the bound above excludes.
   */
  lemma DueByTimeIff(last: u32, interval: u32, now: u32)
    requires last <= now
    ensures (last + interval) % U32 < now <==> (now - last > interval || last + interval >= U32)
  {
  }

  lemma WrappedCall(e: Entry, c: Timeouts, k: Call, d: Dir)
    requires SameSide(k.dir, d) && LastReport(e, d) <= k.now && LastReport(e, d) + c.reportInterval >= U32
    ensures ReportDue(e, c, k.dir, k.now, k.flags)
    ensures LastReport(UpdateTimeout(e, c, k.lifetime, k.dir, k.flags, k.now), d) == k.now
  {
  }

  /** Within an interval of the wrap every call is reported, so no such bound holds there. */
  lemma {:induction false} EveryCallReportedNearWrap(e: Entry, c: Timeouts, cs: seq<Call>, d: Dir)
    requires forall i :: 0 <= i < |cs| ==> SameSide(cs[i].dir, d) && cs[i].now + c.reportInterval >= U32
    requires forall i, j :: 0 <= i <= j < |cs| ==> cs[i].now <= cs[j].now
    requires U32 <= LastReport(e, d) + c.reportInterval && (cs != [] ==> LastReport(e, d) <= cs[0].now)
    ensures Reports(e, c, cs, d) == |cs|
    ensures var last := LastReport(AfterCalls(e, c, cs), d);
            U32 <= last + c.reportInterval && (cs != [] ==> last == cs[|cs| - 1].now)
  {
    hide UpdateTimeout, ReportDue, SeenFlags, LastReport;
    if cs != [] {
      var before := cs[..|cs| - 1];
      EveryCallReportedNearWrap(e, c, before, d);
      WrappedCall(AfterCalls(e, c, before), c, cs[|cs| - 1], d);
    }
  }
}
