/**
 Internet checksum arithmetic: the 32-bit accumulator of bpf/include/bpf/csum.h, the
 incremental replacement of bpf/include/bpf/ctx/xdp.h, and the one's-complement sum of
 section 1 of RFC 1071 that a receiver computes.
 */
module Checksum {
  import opened Net

  const M := 0xffff

  lemma ModShift(a: int, b: int, c: int)
    requires a % M == b % M
    ensures (a + c) % M == (b + c) % M
  {
  }

  function Sum(ws: seq<u16>): nat {
    if ws == [] then 0 else ws[0] + Sum(ws[1..])
  }

  /** One's-complement addition of two words: the carry is added back. */
  function OnesAdd(a: u16, b: u16): (r: u16)
    ensures r % M == (a + b) % M
    ensures r == 0 <==> a == 0 && b == 0
  {
    if a + b > M then a + b - M else a + b
  }

  function OnesSum(ws: seq<u16>): u16 {
    if ws == [] then 0 else OnesAdd(ws[0], OnesSum(ws[1..]))
  }

  /** What a receiver checks of a checksummed range that includes its checksum field. */
  predicate Verifies(ws: seq<u16>) {
    OnesSum(ws) == 0xffff
  }

  lemma {:induction false} VerifiesIff(ws: seq<u16>)
    ensures OnesSum(ws) % M == Sum(ws) % M
    ensures OnesSum(ws) == 0 <==> Sum(ws) == 0
    ensures Verifies(ws) <==> Sum(ws) > 0 && Sum(ws) % M == 0
  {
    if ws != [] {
      VerifiesIff(ws[1..]);
      ModShift(OnesSum(ws[1..]), Sum(ws[1..]), ws[0]);
    }
  }

  lemma {:induction false} SumConcat(a: seq<u16>, b: seq<u16>)
    ensures Sum(a + b) == Sum(a) + Sum(b)
  {
    if a == [] {
      assert a + b == b;
    } else {
      assert (a + b)[1..] == a[1..] + b;
      SumConcat(a[1..], b);
    }
  }

  lemma {:induction false} SumUpdate(ws: seq<u16>, i: nat, v: u16)
    requires i < |ws|
    ensures Sum(ws[i := v]) == Sum(ws) - ws[i] + v
  {
    if i == 0 {
      assert ws[0 := v][1..] == ws[1..];
    } else {
      assert ws[i := v][1..] == ws[1..][i - 1 := v];
      SumUpdate(ws[1..], i - 1, v);
    }
  }

  /** How far storing `v` at `i` moves a sum that covers `i`. */
  function Delta(ws: seq<u16>, i: nat, v: u16): int
    requires i < |ws|
  {
    (v as int) - (ws[i] as int)
  }

  lemma TwoStores(ws: seq<u16>, i: nat, v: u16, j: nat, u: u16)
    requires i < |ws| && j < |ws| && i != j
    ensures Sum(ws[i := v][j := u]) == Sum(ws) + Delta(ws, i, v) + Delta(ws, j, u)
  {
    SumUpdate(ws, i, v);
    SumUpdate(ws[i := v], j, u);
  }

  lemma ThreeStores(ws: seq<u16>, i: nat, v: u16, j: nat, u: u16, k: nat, x: u16)
    requires i < |ws| && j < |ws| && k < |ws| && i != j && i != k && j != k
    ensures Sum(ws[i := v][j := u][k := x]) == Sum(ws) + Delta(ws, i, v) + Delta(ws, j, u) + Delta(ws, k, x)
  {
    TwoStores(ws, i, v, j, u);
    SumUpdate(ws[i := v][j := u], k, x);
  }

  lemma {:induction false} SumAtLeast(ws: seq<u16>, i: nat)
    requires i < |ws|
    ensures Sum(ws) >= ws[i]
  {
    if i > 0 {
      SumAtLeast(ws[1..], i - 1);
    }
  }

  // ---- the 32-bit accumulator ----


  function Not32(x: u32): u32 {
    0xffff_ffff - x
  }

  /** Addition modulo 2^32 plus the carry; a carry is what makes the sum drop below the addend. */
  function CsumAdd(csum: u32, addend: u32): (r: u32)
    ensures r % M == (csum + addend) % M
    ensures r == 0 <==> csum == 0 && addend == 0
  {
    if csum + addend < U32 then csum + addend else csum + addend - U32 + 1
  }

  /** The complement of the folded sum: the representative in 1..0xffff, or 0 for 0. */
  function CsumFold(csum: u32): (r: u16)
    ensures (r + csum) % M == 0
  {
    if csum == 0 then 0xffff else 0xffff - ((csum - 1) % M + 1)
  }

  /** One folding step: the low half plus the high half. */
  function FoldStep(x: u32): (r: u32)
    ensures r % M == x % M && (r == 0 <==> x == 0)
  {
    x % U16 + x / U16
  }

  /** The closed form is what two folding steps and a complement compute. */
  lemma CsumFoldIsTwoSteps(csum: u32)
    ensures FoldStep(FoldStep(csum)) < U16
    ensures CsumFold(csum) == 0xffff - FoldStep(FoldStep(csum))
  {
  }

  /** A 32-bit load of two consecutive words. */
  function Word32(lo: u16, hi: u16): (r: u32)
    ensures r % M == (lo + hi) % M
  {
    lo + U16 * hi
  }

  /** csum_diff of one 32-bit value against another, with seed 0. */
  function CsumDiff4(from: u32, to: u32): (r: u32)
    ensures r % M == (to - from) % M
  {
    CsumAdd(Not32(from), to)
  }

  /** csum_diff with an empty `from` buffer: the seed plus every word of `to`. */
  function CsumPartial(to: seq<u16>, seed: u32): (r: u32)
    ensures r % M == (seed + Sum(to)) % M
    decreases |to|
  {
    if to == [] then seed
    else
      ModShift(CsumAdd(seed, to[0]), seed + to[0], Sum(to[1..]));
      CsumPartial(to[1..], CsumAdd(seed, to[0]))
  }

  /** csum_diff that takes every word of `from` out of the seed. */
  function CsumRemove(from: seq<u16>, seed: u32): (r: u32)
    ensures r % M == (seed - Sum(from)) % M
    decreases |from|
  {
    if from == [] then seed
    else
      ModShift(CsumAdd(seed, Not32(from[0])), seed - from[0], 0 - Sum(from[1..]));
      CsumRemove(from[1..], CsumAdd(seed, Not32(from[0])))
  }

  /** csum_diff over two buffers. */
  function CsumDiff(from: seq<u16>, to: seq<u16>, seed: u32): (r: u32)
    ensures r % M == (seed + Sum(to) - Sum(from)) % M
  {
    ModShift(CsumRemove(from, seed), seed - Sum(from), Sum(to));
    CsumPartial(to, CsumRemove(from, seed))
  }

  /** Equation 3 of section 3 of RFC 1624: the field moves by minus the difference. */
  function ReplaceByDiff(sum: u16, diff: u32): (r: u16)
    ensures (r - sum + diff) % M == 0
    ensures r != 0xffff
  {
    var acc := CsumAdd(diff, Not32(sum));
    ModShift(acc, diff - sum, CsumFold(acc));
    CsumFold(acc)
  }

  /** `from == 0` means that `to` already is a difference; both readings agree. */
  function Replace(sum: u16, from: u32, to: u32): (r: u16)
    ensures (r - sum + to - from) % M == 0
    ensures r != 0xffff
  {
    if from != 0 then
      var diff := CsumDiff4(from, to);
      ModShift(diff, to - from, ReplaceByDiff(sum, diff) - sum);
      ReplaceByDiff(sum, diff)
    else ReplaceByDiff(sum, to)
  }

  /** UDP mode (`mangledZero`) leaves an absent checksum absent and never produces zero. */
  function ReplaceL4(sum: u16, from: u32, to: u32, mangledZero: bool): (r: u16)
    ensures mangledZero && sum == 0 ==> r == 0
    ensures !(mangledZero && sum == 0) ==> (r - sum + to - from) % M == 0
    ensures mangledZero && sum != 0 ==> r != 0
    ensures !mangledZero ==> r != 0xffff
  {
    if mangledZero && sum == 0 then 0
    else
      var s := Replace(sum, from, to);
      ModShift(0, M, to - from - sum);
      if mangledZero && s == 0 then 0xffff else s
  }
}
