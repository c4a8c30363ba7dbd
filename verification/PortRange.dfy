/**
 Port selection of bpf/lib/nat.h: the multiply-shift clamp, the configured NAT port
 ranges, and the reply path's decision to look a port up or skip it.
 */
module PortRange {
  import opened Net

  /** The scaled value: `(end - start + 1) * val` in 32 bits, shifted down by 16. */
  function Clamp(start: u16, end: u16, val: u16): (port: u16)
    requires start <= end
    ensures start <= port <= end
  {
    var n := end - start + 1;
    var m: u32 := (ProductFits(val, n); val * n);
    ScaledBelow(val, n);
    start + m / U16
  }

  lemma ProductFits(val: u16, n: nat)
    requires n <= U16
    ensures 0 <= val * n < U32
  {
  }

  lemma ScaledBelow(val: u16, n: nat)
    requires 0 < n <= U16
    ensures 0 <= val * n / U16 < n
  {
  }

  /** Keep the port when it is in range, otherwise scale a random number into the range. */
  function TryKeepPort(start: u16, end: u16, val: u16, rand: u16): (port: u16)
    requires start <= end
    ensures start <= port <= end
    ensures start <= val <= end ==> port == val
  {
    if start <= val <= end then val else Clamp(start, end, rand)
  }

  // ---- fairness of the clamp ----

  /** The values that the clamp sends to `port`. */
  ghost function Preimage(start: u16, end: u16, port: u16): set<int>
    requires start <= end
  {
    set v: int | 0 <= v < U16 && Clamp(start, end, v) == port
  }

  /** The least value whose product with `n` reaches `k * 2^16`. */
  function FirstReaching(k: nat, n: nat): nat
    requires 0 < n
  {
    (k * U16 + n - 1) / n
  }

  lemma ReachesIff(k: nat, n: nat, v: nat)
    requires 0 < n
    ensures k * U16 <= v * n <==> FirstReaching(k, n) <= v
  {
    var c := FirstReaching(k, n);
    DivBounds(k * U16 + n - 1, n);
    if c <= v {
      assert c * n <= v * n;
    } else {
      assert v + 1 <= c;
      assert (v + 1) * n <= c * n;
      assert (v + 1) * n == v * n + n;
    }
  }

  lemma DivBounds(a: nat, n: nat)
    requires 0 < n
    ensures (a / n) * n <= a < (a / n) * n + n
  {
  }

  lemma ClampHitsIff(start: u16, end: u16, v: u16, k: nat)
    requires start <= end && k <= end - start
    ensures Clamp(start, end, v) == start + k
       <==> FirstReaching(k, end - start + 1) <= v < FirstReaching(k + 1, end - start + 1)
  {
    var n := end - start + 1;
    ReachesIff(k, n, v);
    ReachesIff(k + 1, n, v);
    assert v * n / U16 == k <==> k * U16 <= v * n < (k + 1) * U16;
  }

  lemma {:induction false} IntervalCard(s: set<int>, lo: int, hi: int)
    requires lo <= hi
    requires forall v :: v in s <==> lo <= v < hi
    ensures |s| == hi - lo
    decreases hi - lo
  {
    if lo == hi {
      assert forall v :: v !in s;
      assert |s| == 0;
    } else {
      assert hi - 1 in s;
      IntervalCard(s - {hi - 1}, lo, hi - 1);
    }
  }

  /** One more slot needs the whole part of 2^16 / n values, or one more than that. */
  lemma SlotWidth(k: nat, n: nat)
    requires 0 < n
    ensures U16 / n <= FirstReaching(k + 1, n) - FirstReaching(k, n) <= U16 / n + 1
  {
    var q, r := U16 / n, U16 % n;
    assert U16 == q * n + r;
    var a := k * U16 + n - 1;
    var b := (k + 1) * U16 + n - 1;
    assert b == a + q * n + r;
    DivShift(a, q, n);
    DivStep(a + q * n, r, n);
  }

  lemma DivShift(a: nat, q: nat, n: nat)
    requires 0 < n
    ensures (a + q * n) / n == a / n + q
  {
    var d := a / n;
    DivBounds(a, n);
    assert (d + q) * n == d * n + q * n;
    DivUnique(a + q * n, n, d + q);
  }

  lemma DivUnique(a: nat, n: nat, d: nat)
    requires 0 < n && d * n <= a < d * n + n
    ensures a / n == d
  {
    DivBounds(a, n);
    MulOrder(a / n, d, n);
    MulOrder(d, a / n, n);
  }

  lemma MulOrder(x: nat, y: nat, n: nat)
    ensures x < y ==> x * n + n <= y * n
  {
    if x < y {
      assert (x + 1) * n <= y * n;
    }
  }

  lemma DivStep(a: nat, r: nat, n: nat)
    requires 0 < n && r < n
    ensures a / n <= (a + r) / n <= a / n + 1
  {
    var q := a / n;
    DivBounds(a, n);
    assert (q + 1) * n == q * n + n;
    DivUnique(a + r, n, if a + r < q * n + n then q else q + 1);
  }

  lemma FirstReachingEnd(n: nat)
    requires 0 < n
    ensures FirstReaching(0, n) == 0 && FirstReaching(n, n) == U16
  {
    DivUnique(n - 1, n, 0);
    DivUnique(n * U16 + n - 1, n, U16);
  }

  lemma {:induction false} FirstReachingMonotone(j: nat, k: nat, n: nat)
    requires 0 < n && j <= k
    ensures FirstReaching(j, n) <= FirstReaching(k, n)
    decreases k - j
  {
    hide FirstReaching;
    if j < k {
      SlotWidth(j, n);
      FirstReachingMonotone(j + 1, k, n);
    }
  }

  lemma PreimageCard(start: u16, end: u16, port: u16)
    requires start <= port <= end
    ensures U16 / (end - start + 1) <= |Preimage(start, end, port)| <= U16 / (end - start + 1) + 1
  {
    var n, k := end - start + 1, port - start;
    FirstReachingEnd(n);
    FirstReachingMonotone(0, k, n);
    FirstReachingMonotone(k + 1, n, n);
    SlotWidth(k, n);
    forall v: int
      ensures v in Preimage(start, end, port) <==> FirstReaching(k, n) <= v < FirstReaching(k + 1, n)
    {
      if 0 <= v < U16 {
        ClampHitsIff(start, end, v, k);
      }
    }
    IntervalCard(Preimage(start, end, port), FirstReaching(k, n), FirstReaching(k + 1, n));
  }

  /** Every port of the range is hit, and no two ports differ by more than one value. */
  lemma ClampIsFair(start: u16, end: u16, p: u16, p': u16)
    requires start <= p <= end && start <= p' <= end
    ensures exists v: u16 :: Clamp(start, end, v) == p
    ensures -1 <= |Preimage(start, end, p)| - |Preimage(start, end, p')| <= 1
  {
    PreimageCard(start, end, p);
    PreimageCard(start, end, p');
    DivUniqueAtLeastOne(end - start + 1);
    var v :| v in Preimage(start, end, p);
    assert Clamp(start, end, v) == p;
  }

  lemma DivUniqueAtLeastOne(n: nat)
    requires 0 < n <= U16
    ensures U16 / n >= 1
  {
  }

  // ---- the configured ranges ----

  /** `natExt` is the optional second range; the source encodes its absence as a zero maximum. */
  datatype Config = Config(nodeportMax: u16, natExt: Option<Range>)

  datatype RawRange = Range(min: u16, max: u16)

  /** A configured range is not empty. */
  type Range = r: RawRange | r.min <= r.max witness Range(0, 0)

  /** NODEPORT_PORT_MIN_NAT as the plain integer the comparisons see. */
  function MinNat(c: Config): int {
    c.nodeportMax + 1
  }

  /** The main range stored in a target: the minimum is truncated to 16 bits. */
  function MainRange(c: Config): Range {
    Range(MinNat(c) % U16, 0xffff)
  }

  /** select_nat_port_range_ipv4: a coin flip when the second range is configured. */
  function SelectRange(c: Config, coin: bool): Range {
    if c.natExt.Some? && coin then c.natExt.value else MainRange(c)
  }

  /** swap_nat_port_range_ipv4; the minimum is compared with the untruncated constant. */
  function SwapRange(c: Config, r: Range): Range
    requires c.natExt.Some?
  {
    if r.min == MinNat(c) then c.natExt.value else MainRange(c)
  }

  predicate RevNatCanSkip(r: Range, dport: u16) {
    dport < r.min || dport > r.max
  }

  /** The reply path of tail_nodeport_nat_ingress_ipv4 reaches a map lookup for this port. */
  predicate ReplyLooksUp(c: Config, dport: u16) {
    || !RevNatCanSkip(MainRange(c), dport)
    || (c.natExt.Some? && !RevNatCanSkip(SwapRange(c, MainRange(c)), dport))
  }

  predicate Inside(r: Range, port: u16) {
    r.min <= port <= r.max
  }

  /** A port drawn from either range, at first or after a swap, is looked up in the reply. */
  lemma AllocatedPortIsLookedUp(c: Config, coin: bool, swapped: bool, port: u16)
    requires swapped ==> c.natExt.Some?
    requires
      var r := SelectRange(c, coin);
      Inside(if swapped then SwapRange(c, r) else r, port)
    ensures ReplyLooksUp(c, port)
  {
  }
}
