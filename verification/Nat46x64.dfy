/**
 NAT46 and NAT64 of bpf/lib/nat_46x64.h: an IPv4 header is exchanged for an IPv6 header and back,
 ICMP for ICMPv6, and the L4 checksum follows the pseudo-header.
 */
module Nat46x64 {
  import opened Net
  import opened Checksum
  import opened Packet
  import Ipv6Ext

  const IP6_WORDS := 20
  const IP6_ADDRS := 4
  const ETH_IPV4: u16 := 0x0008
  const ETH_IPV6: u16 := 0xdd86

  // ---- addresses ----

  /** An IPv6 address as eight words. */
  type Addr6 = a: seq<u16> | |a| == 8 witness seq(8, _ => 0)

  /** ::ffff:a.b.c.d */
  function MappedV6(v4: u32): Addr6 {
    [0, 0, 0, 0, 0, 0xffff, v4 % U16, v4 / U16]
  }

  /** The configured 32-bit prefix, 64 zero bits and the IPv4 address. */
  function PrefixedV6(prefix: u32, v4: u32): Addr6 {
    [prefix % U16, prefix / U16, 0, 0, 0, 0, v4 % U16, v4 / U16]
  }

  function V4Of(a: Addr6): u32 {
    Word32(a[6], a[7])
  }

  predicate IsMapped(a: Addr6) {
    a[..6] == [0, 0, 0, 0, 0, 0xffff]
  }

  predicate IsPrefixed(prefix: u32, a: Addr6) {
    a[..6] == [prefix % U16, prefix / U16, 0, 0, 0, 0]
  }

  /** The recognisers accept exactly what the builders build, and nothing is lost. */
  lemma MappedIff(a: Addr6, prefix: u32, v4: u32)
    ensures V4Of(MappedV6(v4)) == v4 && V4Of(PrefixedV6(prefix, v4)) == v4
    ensures IsMapped(a) <==> a == MappedV6(V4Of(a))
    ensures IsPrefixed(prefix, a) <==> a == PrefixedV6(prefix, V4Of(a))
  {
    WordHalves(a[6], a[7]);
    assert a == a[..6] + [a[6], a[7]];
    assert MappedV6(V4Of(a))[..6] == [0, 0, 0, 0, 0, 0xffff];
    assert PrefixedV6(prefix, V4Of(a))[..6] == [prefix % U16, prefix / U16, 0, 0, 0, 0];
  }

  // ---- ICMP ----

  /** An ICMP header without its checksum; `hi` and `lo` are its last two words. */
  datatype IcmpHdr = IcmpHdr(typ: u8, code: u8, hi: u16, lo: u16)

  /** A type or code that has no counterpart yields a negative error code. */
  datatype IcmpXlate = Supported(hdr: IcmpHdr) | Unsupported(error: u32)

  function Icmp4To6(h: IcmpHdr): IcmpXlate {
    if h.typ == 8 then Supported(IcmpHdr(128, 0, h.hi, h.lo))
    else if h.typ == 0 then Supported(IcmpHdr(129, 0, h.hi, h.lo))
    else if h.typ == 3 then
      if h.code == 2 then Supported(IcmpHdr(4, 1, 6, 0))
      else if h.code == 3 then Supported(IcmpHdr(1, 4, 0, 0))
      else if h.code == 4 then Supported(IcmpHdr(2, 0, 0, if h.lo != 0 then h.lo else Swap16(1500)))
      else if h.code == 9 || h.code == 10 || h.code == 13 then Supported(IcmpHdr(1, 1, 0, 0))
      else if h.code <= 12 then Supported(IcmpHdr(1, 0, 0, 0))
      else Unsupported(U32 - 143)
    else if h.typ == 11 then Supported(IcmpHdr(3, 0, 0, 0))
    else if h.typ == 12 then Supported(IcmpHdr(4, 0, 6, 0))
    else Unsupported(U32 - 144)
  }

  function Icmp6To4(h: IcmpHdr): IcmpXlate {
    if h.typ == 128 then Supported(IcmpHdr(8, 0, h.hi, h.lo))
    else if h.typ == 129 then Supported(IcmpHdr(0, 0, h.hi, h.lo))
    else if h.typ == 1 then
      if h.code == 1 then Supported(IcmpHdr(3, 10, 0, 0))
      else if h.code == 4 then Supported(IcmpHdr(3, 3, 0, 0))
      else if h.code <= 3 then Supported(IcmpHdr(3, 1, 0, 0))
      else Unsupported(U32 - 145)
    else if h.typ == 2 then
      Supported(IcmpHdr(3, 4, 0, if h.hi == 0 && h.lo == 0 then Swap16(1500) else h.lo))
    else if h.typ == 3 then Supported(IcmpHdr(11, h.code, 0, 0))
    else if h.typ == 4 then
      if h.code == 0 then Supported(IcmpHdr(12, 0, 0, 0))
      else if h.code == 1 then Supported(IcmpHdr(3, 2, 0, 0))
      else Unsupported(U32 - 145)
    else Unsupported(U32 - 146)
  }

  function HdrOf(ws: seq<u16>): IcmpHdr
    requires |ws| >= 4
  {
    IcmpHdr(ws[0] % 256, ws[0] / 256, ws[2], ws[3])
  }

  /** The four header words, with checksum `ck`. */
  function WordsOf(h: IcmpHdr, ck: u16): (r: seq<u16>)
    ensures |r| == 4
  {
    [h.typ + 256 * h.code, ck, h.hi, h.lo]
  }

  /** The packet with its ICMP header translated, and the difference for the checksum. */
  datatype Converted = Converted(buf: Buf, sum: u32)

  function XlateIcmp(b: Buf, off: nat, to6: bool): (r: Converted)
    ensures r.buf.len == b.len
  {
    if !Accessible(b, off, 4) then Converted(b, U32 - 134)
    else
      var h := HdrOf(b.words[off..]);
      match if to6 then Icmp4To6(h) else Icmp6To4(h)
      case Unsupported(error) => Converted(b, error)
      case Supported(h') =>
        Converted(b.(words := b.words[..off] + WordsOf(h', b.words[off + 1]) + b.words[off + 4..]),
                  CsumDiff(WordsOf(h, 0), WordsOf(h', 0), 0))
  }

  // ---- the translators ----

  /** Length of the IPv4 payload, in network byte order; the subtraction is 16 bits wide. */
  function PayloadWord(totLen: u16): u16 {
    Swap16((Swap16(totLen) + U16 - 20) % U16)
  }

  function TotalWord(payloadLen: u16): u16 {
    Swap16((Swap16(payloadLen) + 20) % U16)
  }

  function Next6(proto: u8): u8 {
    if proto == ICMP then ICMPV6 else proto
  }

  function Next4(proto: u8): u8 {
    if proto == ICMPV6 then ICMP else proto
  }

  function Header6(totLen: u16, ttl: u8, proto: u8, src: Addr6, dst: Addr6): (r: seq<u16>)
    ensures |r| == IP6_WORDS && r[IP6_ADDRS..] == src + dst
  {
    [0x60, 0, PayloadWord(totLen), Next6(proto) + 256 * ttl] + (src + dst)
  }

  /** The IPv4 header with checksum `ck`; type of service, id and fragment fields are zero. */
  function Header4(payloadLen: u16, hop: u8, next: u8, src: u32, dst: u32, ck: u16): (r: seq<u16>)
    ensures |r| == IP_WORDS
  {
    [0x45, TotalWord(payloadLen), 0, 0, hop + 256 * Next4(next), ck, src % U16, src / U16, dst % U16, dst / U16]
  }

  /** Sum of the IPv6 pseudo-header (section 8.1 of RFC 8200), added to a seed. */
  function PseudoSum(addrs: seq<u16>, payload: u16, next: u8, seed: u32): (r: u32)
    ensures r % M == (seed + Sum(addrs + [0, payload, 0, 256 * next])) % M
  {
    CsumPartial(addrs + [0, payload, 0, 256 * next], seed)
  }

  /** Where a protocol keeps its checksum, or nothing for an unknown one. */
  function CkOffset(proto: u8): Option<nat> {
    if proto == TCP then Some(TCP_CHECK)
    else if proto == UDP then Some(UDP_CHECK)
    else if proto == ICMP || proto == ICMPV6 then Some(ICMP_CHECK)
    else None
  }

  /** ipv4_to_ipv6 on a packet with its IPv4 header at `l3`. */
  function To6(b: Buf, l3: nat, src: Addr6, dst: Addr6, noRoom: bool): Rewritten
    requires l3 > 0
  {
    if !Accessible(b, l3, IP_WORDS) then Rewritten(b, DropInvalid)
    else if HdrWords(b, l3) != IP_WORDS then Rewritten(b, DropInvalidExthdr)
    else if noRoom then Rewritten(b, DropWriteError)
    else
      var ttl, proto := b.words[l3 + IP_TTL] % 256, b.words[l3 + IP_TTL] / 256;
      var hdr := Header6(b.words[l3 + 1], ttl, proto, src, dst);
      var b1 := Buf(b.words[..l3 - 1] + [ETH_IPV6] + hdr + b.words[l3 + IP_WORDS..], b.len + 20);
      var l4 := l3 + IP6_WORDS;
      var c :=
        if proto == ICMP then
          var x := XlateIcmp(b1, l4, true);
          x.(sum := PseudoSum(src + dst, hdr[2], ICMPV6, x.sum))
        else
          Converted(b1, CsumDiff(b.words[l3 + DADDR..l3 + IP_WORDS], dst, CsumDiff(b.words[l3 + SADDR..l3 + DADDR], src, 0)));
      var ck := CkOffset(Next6(proto));
      if ck.None? then Rewritten(c.buf, DropUnknownL4)
      else L4Replace(c.buf, l4 + ck.value, 0, c.sum, proto == UDP)
  }

  /** ipv6_to_ipv4; packets with extension headers are dropped. */
  function To4(b: Buf, l3: nat, src: u32, dst: u32, noRoom: bool): Rewritten
    requires l3 > 0
  {
    if !Accessible(b, l3, IP6_WORDS) then Rewritten(b, DropInvalid)
    else
      var hop, next := b.words[l3 + 3] / 256, b.words[l3 + 3] % 256;
      if next == Ipv6Ext.NEXTHDR_NONE || Ipv6Ext.IsExt(next) then Rewritten(b, DropInvalidExthdr)
      else if noRoom then Rewritten(b, DropWriteError)
      else
        var addrs := b.words[l3 + IP6_ADDRS..l3 + IP6_WORDS];
        var ip := Replace(0, 0, CsumPartial(Header4(b.words[l3 + 2], hop, next, src, dst, 0), 0));
        var hdr := Header4(b.words[l3 + 2], hop, next, src, dst, ip);
        var b1 := Buf(b.words[..l3 - 1] + [ETH_IPV4] + hdr + b.words[l3 + IP6_WORDS..], b.len - 20);
        var l4 := l3 + IP_WORDS;
        var c :=
          if next == ICMPV6 then
            var x := XlateIcmp(b1, l4, false);
            x.(sum := CsumAdd(x.sum, Not32(PseudoSum(addrs, b.words[l3 + 2], ICMPV6, 0))))
          else
            Converted(b1, CsumDiff(addrs[8..], hdr[DADDR..], CsumDiff(addrs[..8], hdr[SADDR..DADDR], 0)));
        var ck := CkOffset(Next4(next));
        if ck.None? then Rewritten(c.buf, DropUnknownL4)
        else L4Replace(c.buf, l4 + ck.value, 0, c.sum, next == UDP)
  }

  // ---- the imperative form ----

  method ConvertIcmp(ctx: Ctx, off: nat, to6: bool) returns (sum: u32)
    modifies ctx
    ensures Converted(ctx.buf, sum) == XlateIcmp(old(ctx.buf), off, to6)
  {
    hide Icmp4To6, Icmp6To4, CsumDiff;
    if !Accessible(ctx.buf, off, 4) {
      return U32 - 134;
    }
    var h := HdrOf(ctx.buf.words[off..]);
    var x := if to6 then Icmp4To6(h) else Icmp6To4(h);
    if x.Unsupported? {
      return x.error;
    }
    var words := WordsOf(x.hdr, ctx.buf.words[off + 1]);
    ctx.buf := ctx.buf.(words := ctx.buf.words[..off] + words + ctx.buf.words[off + 4..]);
    sum := CsumDiff(WordsOf(h, 0), WordsOf(x.hdr, 0), 0);
  }

  method Translate46(ctx: Ctx, l3: nat, src: Addr6, dst: Addr6, noRoom: bool) returns (ret: Ret)
    requires l3 > 0
    modifies ctx
    ensures Rewritten(ctx.buf, ret) == To6(old(ctx.buf), l3, src, dst, noRoom)
  {
    hide XlateIcmp, CsumDiff, PseudoSum, L4Replace, PayloadWord;
    if !Accessible(ctx.buf, l3, IP_WORDS) {
      return DropInvalid;
    }
    if HdrWords(ctx.buf, l3) != IP_WORDS {
      return DropInvalidExthdr;
    }
    var v4 := ctx.buf.words[l3..l3 + IP_WORDS];
    var ttl, proto := v4[IP_TTL] % 256, v4[IP_TTL] / 256;
    var next := proto;
    if proto == ICMP {
      next := ICMPV6;
    }
    var v6: seq<u16> := [0x60, 0, PayloadWord(v4[1]), next + 256 * ttl] + (src + dst);
    if noRoom {
      return DropWriteError;
    }
    ctx.buf := Buf(ctx.buf.words[..l3 - 1] + [ETH_IPV6] + v6 + ctx.buf.words[l3 + IP_WORDS..], ctx.buf.len + 20);
    assert v4[SADDR..DADDR] == old(ctx.buf).words[l3 + SADDR..l3 + DADDR];
    assert v4[DADDR..] == old(ctx.buf).words[l3 + DADDR..l3 + IP_WORDS];
    var sum := 0;
    if proto == ICMP {
      sum := ConvertIcmp(ctx, l3 + IP6_WORDS, true);
      sum := PseudoSum(src + dst, v6[2], ICMPV6, sum);
    } else {
      sum := CsumDiff(v4[SADDR..DADDR], src, sum);
      sum := CsumDiff(v4[DADDR..], dst, sum);
    }
    var off := CkOffset(next);
    if off.None? {
      return DropUnknownL4;
    }
    var ok := ctx.CsumReplaceL4(l3 + IP6_WORDS + off.value, 0, sum, proto == UDP);
    return if ok then Ok else DropCsumL4;
  }

  method Translate64(ctx: Ctx, l3: nat, src: u32, dst: u32, noRoom: bool) returns (ret: Ret)
    requires l3 > 0
    modifies ctx
    ensures Rewritten(ctx.buf, ret) == To4(old(ctx.buf), l3, src, dst, noRoom)
  {
    hide XlateIcmp, CsumDiff, PseudoSum, L4Replace, TotalWord, Replace, CsumPartial, CsumAdd;
    if !Accessible(ctx.buf, l3, IP6_WORDS) {
      return DropInvalid;
    }
    var v6 := ctx.buf.words[l3..l3 + IP6_WORDS];
    var hop, next := v6[3] / 256, v6[3] % 256;
    if next == Ipv6Ext.NEXTHDR_NONE || Ipv6Ext.IsExt(next) {
      return DropInvalidExthdr;
    }
    var proto := next;
    if next == ICMPV6 {
      proto := ICMP;
    }
    var v4: seq<u16> := [0x45, TotalWord(v6[2]), 0, 0, hop + 256 * proto, 0, src % U16, src / U16, dst % U16, dst / U16];
    var csum := CsumPartial(v4, 0);
    if noRoom {
      return DropWriteError;
    }
    v4 := v4[IP_CHECK := Replace(0, 0, csum)];
    ghost var ip := Replace(0, 0, csum);
    assert v4 == Header4(v6[2], hop, next, src, dst, ip);
    ctx.buf := Buf(ctx.buf.words[..l3 - 1] + [ETH_IPV4] + v4 + ctx.buf.words[l3 + IP6_WORDS..], ctx.buf.len - 20);
    var addrs := v6[IP6_ADDRS..];
    assert addrs == old(ctx.buf).words[l3 + IP6_ADDRS..l3 + IP6_WORDS];
    var sum := 0;
    if next == ICMPV6 {
      sum := ConvertIcmp(ctx, l3 + IP_WORDS, false);
      sum := CsumAdd(sum, Not32(PseudoSum(addrs, v6[2], ICMPV6, 0)));
    } else {
      sum := CsumDiff(addrs[..8], v4[SADDR..DADDR], sum);
      sum := CsumDiff(addrs[8..], v4[DADDR..], sum);
    }
    var off := CkOffset(proto);
    if off.None? {
      return DropUnknownL4;
    }
    var ok := ctx.CsumReplaceL4(l3 + IP_WORDS + off.value, 0, sum, proto == UDP);
    return if ok then Ok else DropCsumL4;
  }

  // ---- what a receiver checks ----

  /** The L4 checksum of an IPv4 packet without options. */
  ghost predicate Valid4(b: Buf, l3: nat)
    requires Accessible(b, l3, IP_WORDS)
  {
    var proto, rest := b.words[l3 + IP_TTL] / 256, b.words[l3 + IP_WORDS..];
    if proto == ICMP then Verifies(rest)
    else Verifies(b.words[l3 + SADDR..l3 + IP_WORDS] + [PayloadWord(b.words[l3 + 1]), 256 * proto] + rest)
  }

  /** The L4 checksum of an IPv6 packet without extension headers. */
  ghost predicate Valid6(b: Buf, l3: nat)
    requires Accessible(b, l3, IP6_WORDS)
  {
    Verifies(b.words[l3 + IP6_ADDRS..l3 + IP6_WORDS] + [0, b.words[l3 + 2], 0, 256 * (b.words[l3 + 3] % 256)]
             + b.words[l3 + IP6_WORDS..])
  }

  // ---- the packet as three parts ----

  /** What follows the network header: ICMP is translated, everything else stays. */
  function NewRest(rest: seq<u16>, proto: u8, to6: bool): (r: seq<u16>)
    requires proto == (if to6 then ICMP else ICMPV6) ==> |rest| >= 4
    ensures |r| == |rest|
    ensures |rest| >= 4 ==> r[1] == rest[1] && r[4..] == rest[4..]
  {
    if proto != (if to6 then ICMP else ICMPV6) then rest
    else
      match if to6 then Icmp4To6(HdrOf(rest)) else Icmp6To4(HdrOf(rest))
      case Unsupported(_) => rest
      case Supported(h) => WordsOf(h, rest[1]) + rest[4..]
  }

  predicate SupportedIcmp(rest: seq<u16>, to6: bool)
    requires |rest| >= 4
  {
    (if to6 then Icmp4To6(HdrOf(rest)) else Icmp6To4(HdrOf(rest))).Supported?
  }

  lemma XlateIcmpShape(front: seq<u16>, rest: seq<u16>, len: nat, to6: bool)
    requires |rest| >= 4 && SupportedIcmp(rest, to6)
    requires |front| + |rest| == (len + 1) / 2 && 2 * (|front| + 4) <= len
    ensures var x := XlateIcmp(Buf(front + rest, len), |front|, to6);
            var r := NewRest(rest, if to6 then ICMP else ICMPV6, to6);
            && x.buf == Buf(front + r, len)
            && x.sum % M == (Sum(r) - Sum(rest)) % M
  {
    hide CsumDiff, Icmp4To6, Icmp6To4, Sum, HdrOf;
    var h := HdrOf(rest);
    var h' := (if to6 then Icmp4To6(h) else Icmp6To4(h)).hdr;
    var r := NewRest(rest, if to6 then ICMP else ICMPV6, to6);
    assert (front + rest)[|front|..] == rest;
    assert (front + rest)[..|front|] == front;
    assert (front + rest)[|front| + 4..] == rest[4..];
    assert front + WordsOf(h', rest[1]) + rest[4..] == front + r;
    IcmpSums(rest, h, h');
  }

  lemma IcmpSums(rest: seq<u16>, h: IcmpHdr, h': IcmpHdr)
    requires |rest| >= 4 && h == HdrOf(rest)
    ensures Sum(WordsOf(h', rest[1]) + rest[4..]) - Sum(rest) == Sum(WordsOf(h', 0)) - Sum(WordsOf(h, 0))
  {
    hide WordsOf, Sum;
    RestIsHeader(rest);
    SumConcat(WordsOf(h, rest[1]), rest[4..]);
    SumConcat(WordsOf(h', rest[1]), rest[4..]);
    CkWord(h, rest[1]);
    CkWord(h', rest[1]);
  }

  lemma RestIsHeader(rest: seq<u16>)
    requires |rest| >= 4
    ensures rest == WordsOf(HdrOf(rest), rest[1]) + rest[4..]
  {
  }

  lemma CkWord(h: IcmpHdr, ck: u16)
    ensures Sum(WordsOf(h, ck)) == Sum(WordsOf(h, 0)) + ck
  {
  }

  /** The checksum word of `rest` moves against `sum`. */
  lemma StoreCk(front: seq<u16>, r: seq<u16>, len: nat, off: nat, sum: u32, udp: bool, k: u16)
    requires |front| + |r| == (len + 1) / 2 && 2 * (|front| + off + 1) <= len
    requires k == ReplaceL4(r[off], 0, sum, udp)
    ensures L4Replace(Buf(front + r, len), |front| + off, 0, sum, udp) == Rewritten(Buf(front + r[off := k], len), Ok)
  {
  }

  lemma FixedSum(r: seq<u16>, off: nat, sum: u32, udp: bool, k: u16, d: int)
    requires off < |r| && k == ReplaceL4(r[off], 0, sum, udp) && (udp ==> r[off] != 0) && sum % M == d % M
    ensures (Sum(r[off := k]) + d) % M == Sum(r) % M
    ensures udp ==> k != 0
  {
    hide ReplaceL4;
    SumUpdate(r, off, k);
    var dk := (k as int) - (r[off] as int);
    ModShift(sum, d, dk);
    ModShift(dk + d, 0, Sum(r));
  }

  // ---- IPv4 to IPv6 ----

  /** An option-free IPv4 packet with TCP, UDP or translatable ICMP whose headers are complete. */
  predicate Complete4(b: Buf, l3: nat) {
    && l3 > 0 && Accessible(b, l3, IP_WORDS) && HdrWords(b, l3) == IP_WORDS
    && var proto, l4 := b.words[l3 + IP_TTL] / 256, l3 + IP_WORDS;
       && (proto == TCP || proto == UDP || proto == ICMP)
       && Accessible(b, l4 + CkOffset(proto).value, 1)
       && (proto == ICMP ==> Accessible(b, l4, 4) && SupportedIcmp(b.words[l4..], true))
  }

  /** UDP without checksum. */
  predicate Unsummed(b: Buf, l3: nat)
    requires Complete4(b, l3)
  {
    b.words[l3 + IP_TTL] / 256 == UDP && b.words[l3 + IP_WORDS + UDP_CHECK] == 0
  }

  /** The L4 checksum is present. */
  predicate Fits4(b: Buf, l3: nat) {
    Complete4(b, l3) && !Unsummed(b, l3)
  }

  /** How much more the IPv6 pseudo-header adds to the L4 sum than the IPv4 one. */
  ghost function Pseudo6(b: Buf, l3: nat, src: Addr6, dst: Addr6): int
    requires Accessible(b, l3, IP_WORDS)
  {
    if b.words[l3 + IP_TTL] / 256 == ICMP then Sum(src + dst + [0, PayloadWord(b.words[l3 + 1]), 0, 256 * ICMPV6])
    else Sum(src) + Sum(dst) - Sum(b.words[l3 + SADDR..l3 + DADDR]) - Sum(b.words[l3 + DADDR..l3 + IP_WORDS])
  }

  /** The front of the translated packet: link header and IPv6 header. */
  function Front6(b: Buf, l3: nat, src: Addr6, dst: Addr6): (r: seq<u16>)
    requires l3 > 0 && Accessible(b, l3, IP_WORDS)
    ensures |r| == l3 + IP6_WORDS
    ensures r[l3..] == Header6(b.words[l3 + 1], b.words[l3 + IP_TTL] % 256, b.words[l3 + IP_TTL] / 256, src, dst)
  {
    b.words[..l3 - 1] + [ETH_IPV6]
    + Header6(b.words[l3 + 1], b.words[l3 + IP_TTL] % 256, b.words[l3 + IP_TTL] / 256, src, dst)
  }

  /** The translated packet as its front and its rest with checksum `k`. */
  ghost predicate IsTo6(b: Buf, l3: nat, src: Addr6, dst: Addr6, k: u16)
    requires Fits4(b, l3)
  {
    var proto, rest := b.words[l3 + IP_TTL] / 256, b.words[l3 + IP_WORDS..];
    var r := NewRest(rest, proto, true)[CkOffset(proto).value := k];
    && To6(b, l3, src, dst, false) == Rewritten(Buf(Front6(b, l3, src, dst) + r, b.len + 20), Ok)
    && (Sum(r) + Pseudo6(b, l3, src, dst)) % M == Sum(rest) % M
    && (proto == UDP ==> k != 0)
  }

  lemma To6Icmp(b: Buf, l3: nat, src: Addr6, dst: Addr6) returns (k: u16)
    requires Fits4(b, l3) && b.words[l3 + IP_TTL] / 256 == ICMP
    ensures IsTo6(b, l3, src, dst, k)
  {
    hide CsumDiff, ReplaceL4, PayloadWord, XlateIcmp, L4Replace, Swap16, Icmp4To6, PseudoSum, NewRest, Sum;
    var rest, front := b.words[l3 + IP_WORDS..], Front6(b, l3, src, dst);
    var payload := PayloadWord(b.words[l3 + 1]);
    var r := NewRest(rest, ICMP, true);
    XlateIcmpShape(front, rest, b.len + 20, true);
    var x := XlateIcmp(Buf(front + rest, b.len + 20), l3 + IP6_WORDS, true);
    var sum := PseudoSum(src + dst, payload, ICMPV6, x.sum);
    var pseudo := Sum(src + dst + [0, payload, 0, 256 * ICMPV6]);
    ModShift(x.sum, Sum(r) - Sum(rest), pseudo);
    k := ReplaceL4(r[ICMP_CHECK], 0, sum, false);
    StoreCk(front, r, b.len + 20, ICMP_CHECK, sum, false, k);
    FixedSum(r, ICMP_CHECK, sum, false, k, Sum(r) - Sum(rest) + pseudo);
    ModShift(Sum(r[ICMP_CHECK := k]) + (Sum(r) - Sum(rest) + pseudo), Sum(r), Sum(rest) - Sum(r));
  }

  lemma To6Ports(b: Buf, l3: nat, src: Addr6, dst: Addr6) returns (k: u16)
    requires Fits4(b, l3) && b.words[l3 + IP_TTL] / 256 != ICMP
    ensures IsTo6(b, l3, src, dst, k)
  {
    hide CsumDiff, ReplaceL4, PayloadWord, L4Replace, Swap16, Icmp4To6, Sum;
    var proto, rest, front := b.words[l3 + IP_TTL] / 256, b.words[l3 + IP_WORDS..], Front6(b, l3, src, dst);
    var off := CkOffset(proto).value;
    var s1 := CsumDiff(b.words[l3 + SADDR..l3 + DADDR], src, 0);
    var sum := CsumDiff(b.words[l3 + DADDR..l3 + IP_WORDS], dst, s1);
    ModShift(s1, Sum(src) - Sum(b.words[l3 + SADDR..l3 + DADDR]), Sum(dst) - Sum(b.words[l3 + DADDR..l3 + IP_WORDS]));
    k := ReplaceL4(rest[off], 0, sum, proto == UDP);
    StoreCk(front, rest, b.len + 20, off, sum, proto == UDP, k);
    FixedSum(rest, off, sum, proto == UDP, k, Pseudo6(b, l3, src, dst));
  }

  lemma To6Shape(b: Buf, l3: nat, src: Addr6, dst: Addr6) returns (k: u16)
    requires Fits4(b, l3)
    ensures IsTo6(b, l3, src, dst, k)
  {
    hide IsTo6;
    if b.words[l3 + IP_TTL] / 256 == ICMP {
      k := To6Icmp(b, l3, src, dst);
    } else {
      k := To6Ports(b, l3, src, dst);
    }
  }

  /** Sums of the two checksummed ranges. */
  lemma Sum6(front: seq<u16>, r: seq<u16>, l3: nat)
    requires |front| == l3 + IP6_WORDS
    ensures var w := front + r;
            Sum(w[l3 + IP6_ADDRS..l3 + IP6_WORDS] + [0, w[l3 + 2], 0, 256 * (w[l3 + 3] % 256)] + w[l3 + IP6_WORDS..])
            == Sum(front[l3 + IP6_ADDRS..]) + front[l3 + 2] + 256 * (front[l3 + 3] % 256) + Sum(r)
  {
    var w := front + r;
    assert w[l3 + IP6_ADDRS..l3 + IP6_WORDS] == front[l3 + IP6_ADDRS..];
    assert w[l3 + IP6_WORDS..] == r;
    var t: seq<u16> := [0, w[l3 + 2], 0, 256 * (w[l3 + 3] % 256)];
    SumFour(t);
    SumConcat(front[l3 + IP6_ADDRS..] + t, r);
    SumConcat(front[l3 + IP6_ADDRS..], t);
  }

  lemma SumFour(t: seq<u16>)
    requires |t| == 4
    ensures Sum(t) == (t[0] as int) + t[1] + t[2] + t[3]
  {
    assert t[1..][1..] == t[2..] && t[2..][1..] == t[3..] && t[3..][1..] == [];
    assert Sum(t[3..]) == t[3];
    assert Sum(t[2..]) == t[2] + Sum(t[3..]);
    assert Sum(t[1..]) == t[1] + Sum(t[2..]);
  }

  lemma Sum4(b: Buf, l3: nat)
    requires Accessible(b, l3, IP_WORDS) && b.words[l3 + IP_TTL] / 256 != ICMP
    ensures var proto, rest := b.words[l3 + IP_TTL] / 256, b.words[l3 + IP_WORDS..];
            Sum(b.words[l3 + SADDR..l3 + IP_WORDS] + [PayloadWord(b.words[l3 + 1]), 256 * proto] + rest)
            == Sum(b.words[l3 + SADDR..l3 + DADDR]) + Sum(b.words[l3 + DADDR..l3 + IP_WORDS])
               + PayloadWord(b.words[l3 + 1]) + 256 * proto + Sum(rest)
  {
    hide PayloadWord;
    var proto, rest := b.words[l3 + IP_TTL] / 256, b.words[l3 + IP_WORDS..];
    var sa, da := b.words[l3 + SADDR..l3 + DADDR], b.words[l3 + DADDR..l3 + IP_WORDS];
    var t: seq<u16> := [PayloadWord(b.words[l3 + 1]), 256 * proto];
    assert b.words[l3 + SADDR..l3 + IP_WORDS] == sa + da;
    assert t[1..] == [256 * proto] && Sum(t[1..]) == 256 * proto;
    SumConcat(sa + da + t, rest);
    SumConcat(sa + da, t);
    SumConcat(sa, da);
  }

  /** What the IPv6 receiver adds up. */
  ghost function Total6(front: seq<u16>, r: seq<u16>, l3: nat): int
    requires |front| == l3 + IP6_WORDS
  {
    Sum(front[l3 + IP6_ADDRS..]) + front[l3 + 2] + 256 * (front[l3 + 3] % 256) + Sum(r)
  }

  lemma Valid6Iff(b: Buf, front: seq<u16>, r: seq<u16>, l3: nat)
    requires Accessible(b, l3, IP6_WORDS) && |front| == l3 + IP6_WORDS && b.words == front + r
    ensures Valid6(b, l3) <==> Total6(front, r, l3) > 0 && Total6(front, r, l3) % M == 0
  {
    hide Verifies;
    var w := b.words;
    Sum6(front, r, l3);
    VerifiesIff(w[l3 + IP6_ADDRS..l3 + IP6_WORDS] + [0, w[l3 + 2], 0, 256 * (w[l3 + 3] % 256)] + w[l3 + IP6_WORDS..]);
  }

  /** What the IPv4 receiver adds up. */
  ghost function Total4(b: Buf, l3: nat): int
    requires Accessible(b, l3, IP_WORDS)
  {
    var proto, rest := b.words[l3 + IP_TTL] / 256, b.words[l3 + IP_WORDS..];
    if proto == ICMP then Sum(rest)
    else Sum(b.words[l3 + SADDR..l3 + DADDR]) + Sum(b.words[l3 + DADDR..l3 + IP_WORDS])
         + PayloadWord(b.words[l3 + 1]) + 256 * proto + Sum(rest)
  }

  lemma Valid4Iff(b: Buf, l3: nat)
    requires Accessible(b, l3, IP_WORDS)
    ensures Valid4(b, l3) <==> Total4(b, l3) > 0 && Total4(b, l3) % M == 0
  {
    hide Verifies, PayloadWord;
    var proto, rest := b.words[l3 + IP_TTL] / 256, b.words[l3 + IP_WORDS..];
    if proto == ICMP {
      VerifiesIff(rest);
    } else {
      Sum4(b, l3);
      VerifiesIff(b.words[l3 + SADDR..l3 + IP_WORDS] + [PayloadWord(b.words[l3 + 1]), 256 * proto] + rest);
    }
  }

  lemma Total6Is(b: Buf, l3: nat, src: Addr6, dst: Addr6, r: seq<u16>)
    requires Fits4(b, l3)
    ensures Total6(Front6(b, l3, src, dst), r, l3)
         == Total4(b, l3) + Sum(r) + Pseudo6(b, l3, src, dst) - Sum(b.words[l3 + IP_WORDS..])
    ensures Total6(Front6(b, l3, src, dst), r, l3) > 0
  {
    hide PayloadWord, Front6, Icmp4To6;
    FrontWords6(b, l3, src, dst);
    SumConcat(src, dst);
    var t: seq<u16> := [0, PayloadWord(b.words[l3 + 1]), 0, 256 * ICMPV6];
    SumFour(t);
    SumConcat(src + dst, t);
  }

  /** A valid L4 checksum is valid again behind the IPv6 header, for every address pair and protocol. */
  lemma To6KeepsChecksum(b: Buf, l3: nat, src: Addr6, dst: Addr6)
    requires Fits4(b, l3) && Valid4(b, l3)
    ensures var out := To6(b, l3, src, dst, false);
            out.ret == Ok && Accessible(out.buf, l3, IP6_WORDS) && Valid6(out.buf, l3)
  {
    hide To6, Valid4, Valid6, Total4, Total6, Pseudo6, NewRest;
    var k := To6Shape(b, l3, src, dst);
    var proto, rest := b.words[l3 + IP_TTL] / 256, b.words[l3 + IP_WORDS..];
    var r: seq<u16> := NewRest(rest, proto, true)[CkOffset(proto).value := k];
    Valid4Iff(b, l3);
    Total6Is(b, l3, src, dst, r);
    ModShift(Sum(r) + Pseudo6(b, l3, src, dst), Sum(rest), Total4(b, l3) - Sum(rest));
    Valid6Iff(To6(b, l3, src, dst, false).buf, Front6(b, l3, src, dst), r, l3);
  }

  /** An IPv4 receiver takes UDP without checksum; an IPv6 receiver discards it (section 8.1 of RFC 8200). */
  ghost predicate Accepted4(b: Buf, l3: nat)
    requires Complete4(b, l3)
  {
    Unsummed(b, l3) || Valid4(b, l3)
  }

  ghost predicate Accepted6(b: Buf, l3: nat)
    requires Accessible(b, l3, IP6_WORDS)
  {
    && Valid6(b, l3)
    && (b.words[l3 + 3] % 256 == UDP ==>
          Accessible(b, l3 + IP6_WORDS + UDP_CHECK, 1) && b.words[l3 + IP6_WORDS + UDP_CHECK] != 0)
  }

  /** The translation passes an absent UDP checksum on. */
  lemma To6Unsummed(b: Buf, l3: nat, src: Addr6, dst: Addr6)
    requires Complete4(b, l3) && Unsummed(b, l3)
    ensures var out := To6(b, l3, src, dst, false);
            && out.ret == Ok && out.buf.len == b.len + 20
            && out.buf.words == Front6(b, l3, src, dst) + b.words[l3 + IP_WORDS..]
  {
    hide CsumDiff, PayloadWord, Swap16, Icmp4To6, Sum, L4Replace;
    var rest, front := b.words[l3 + IP_WORDS..], Front6(b, l3, src, dst);
    var sum := CsumDiff(b.words[l3 + DADDR..l3 + IP_WORDS], dst, CsumDiff(b.words[l3 + SADDR..l3 + DADDR], src, 0));
    StoreCk(front, rest, b.len + 20, UDP_CHECK, sum, true, ReplaceL4(rest[UDP_CHECK], 0, sum, true));
    assert rest[UDP_CHECK := 0] == rest;
  }

  /** What an IPv4 receiver accepts, an IPv6 receiver accepts after the translation exactly if it was checksummed. */
  lemma To6AcceptedIff(b: Buf, l3: nat, src: Addr6, dst: Addr6)
    requires Complete4(b, l3) && Accepted4(b, l3)
    ensures var out := To6(b, l3, src, dst, false);
            && out.ret == Ok && Accessible(out.buf, l3, IP6_WORDS)
            && (Accepted6(out.buf, l3) <==> !Unsummed(b, l3))
  {
    hide To6, Valid4, Valid6, Front6, NewRest, Pseudo6, Icmp4To6, PayloadWord;
    FrontWords6(b, l3, src, dst);
    var front, out := Front6(b, l3, src, dst), To6(b, l3, src, dst, false).buf;
    if Unsummed(b, l3) {
      To6Unsummed(b, l3, src, dst);
      assert out.words[l3 + 3] == front[l3 + 3];
      assert out.words[l3 + IP6_WORDS + UDP_CHECK] == b.words[l3 + IP_WORDS..][UDP_CHECK];
    } else {
      To6KeepsChecksum(b, l3, src, dst);
      var k := To6Shape(b, l3, src, dst);
      assert out.words[l3 + 3] == front[l3 + 3];
      var proto, rest := b.words[l3 + IP_TTL] / 256, b.words[l3 + IP_WORDS..];
      if proto == UDP {
        assert out.words[l3 + IP6_WORDS + UDP_CHECK] == NewRest(rest, proto, true)[UDP_CHECK := k][UDP_CHECK];
      }
    }
  }

  lemma FrontWords6(b: Buf, l3: nat, src: Addr6, dst: Addr6)
    requires l3 > 0 && Accessible(b, l3, IP_WORDS)
    ensures var f := Front6(b, l3, src, dst);
            && f[l3 + IP6_ADDRS..] == src + dst
            && f[l3 + 2] == PayloadWord(b.words[l3 + 1])
            && f[l3 + 3] % 256 == Next6(b.words[l3 + IP_TTL] / 256) && f[l3 + 3] / 256 == b.words[l3 + IP_TTL] % 256
  {
    hide PayloadWord;
    var f := Front6(b, l3, src, dst);
    var h := f[l3..];
    assert f[l3 + IP6_ADDRS..] == h[IP6_ADDRS..];
    assert f[l3 + 2] == h[2] && f[l3 + 3] == h[3];
  }

  // ---- IPv6 to IPv4 ----

  predicate Fits6(b: Buf, l3: nat) {
    && l3 > 0 && Accessible(b, l3, IP6_WORDS)
    && var next, l4 := b.words[l3 + 3] % 256, l3 + IP6_WORDS;
       && (next == TCP || next == UDP || next == ICMPV6)
       && Accessible(b, l4 + CkOffset(next).value, 1)
       && (next == UDP ==> b.words[l4 + UDP_CHECK] != 0)
       && (next == ICMPV6 ==> Accessible(b, l4, 4) && SupportedIcmp(b.words[l4..], false))
  }

  /** The IPv4 header of the translated packet, with its checksum. */
  function NewHeader4(b: Buf, l3: nat, src: u32, dst: u32): (r: seq<u16>)
    requires Accessible(b, l3, IP6_WORDS)
    ensures |r| == IP_WORDS
  {
    var hop, next := b.words[l3 + 3] / 256, b.words[l3 + 3] % 256;
    Header4(b.words[l3 + 2], hop, next, src, dst,
            Replace(0, 0, CsumPartial(Header4(b.words[l3 + 2], hop, next, src, dst, 0), 0)))
  }

  lemma NewHeaderVerifies(b: Buf, l3: nat, src: u32, dst: u32)
    requires Accessible(b, l3, IP6_WORDS)
    ensures Verifies(NewHeader4(b, l3, src, dst))
  {
    hide Replace, CsumPartial, TotalWord, Next4, Verifies;
    var hop, next := b.words[l3 + 3] / 256, b.words[l3 + 3] % 256;
    var zero := Header4(b.words[l3 + 2], hop, next, src, dst, 0);
    var hdr := NewHeader4(b, l3, src, dst);
    var sum := CsumPartial(zero, 0);
    assert hdr == zero[IP_CHECK := Replace(0, 0, sum)];
    SumUpdate(zero, IP_CHECK, Replace(0, 0, sum));
    ModShift(sum, Sum(zero), Replace(0, 0, sum) as int);
    SumAtLeast(hdr, 0);
    VerifiesIff(hdr);
  }

  function Front4(b: Buf, l3: nat, src: u32, dst: u32): (r: seq<u16>)
    requires l3 > 0 && Accessible(b, l3, IP6_WORDS)
    ensures |r| == l3 + IP_WORDS && r[l3..] == NewHeader4(b, l3, src, dst)
  {
    b.words[..l3 - 1] + [ETH_IPV4] + NewHeader4(b, l3, src, dst)
  }

  ghost function Pseudo4(b: Buf, l3: nat, src: u32, dst: u32): int
    requires Accessible(b, l3, IP6_WORDS)
  {
    var addrs := b.words[l3 + IP6_ADDRS..l3 + IP6_WORDS];
    if b.words[l3 + 3] % 256 == ICMPV6 then 0 - Sum(addrs + [0, b.words[l3 + 2], 0, 256 * ICMPV6])
    else Sum([src % U16, src / U16]) + Sum([dst % U16, dst / U16]) - Sum(addrs[..8]) - Sum(addrs[8..])
  }

  /** The translated packet: its new front, and `r` behind it. */
  function Out4(b: Buf, l3: nat, src: u32, dst: u32, r: seq<u16>): Buf
    requires l3 > 0 && Accessible(b, l3, IP6_WORDS) && |r| == |b.words[l3 + IP6_WORDS..]|
  {
    Buf(Front4(b, l3, src, dst) + r, b.len - 20)
  }

  ghost predicate IsTo4(b: Buf, l3: nat, src: u32, dst: u32, k: u16)
    requires Fits6(b, l3)
  {
    var next, rest := b.words[l3 + 3] % 256, b.words[l3 + IP6_WORDS..];
    var r := NewRest(rest, next, false)[CkOffset(next).value := k];
    && To4(b, l3, src, dst, false) == Rewritten(Out4(b, l3, src, dst, r), Ok)
    && (Sum(r) + Pseudo4(b, l3, src, dst)) % M == Sum(rest) % M
    && (next == UDP ==> k != 0)
    && (next == ICMPV6 ==> k != 0xffff)
  }

  /** The ICMP case of the translator, on the packet as front and rest. */
  lemma To4IsIcmp(b: Buf, l3: nat, src: u32, dst: u32)
    requires Fits6(b, l3) && b.words[l3 + 3] % 256 == ICMPV6
    ensures var x := XlateIcmp(Buf(Front4(b, l3, src, dst) + b.words[l3 + IP6_WORDS..], b.len - 20), l3 + IP_WORDS, false);
            var p := PseudoSum(b.words[l3 + IP6_ADDRS..l3 + IP6_WORDS], b.words[l3 + 2], ICMPV6, 0);
            To4(b, l3, src, dst, false) == L4Replace(x.buf, l3 + IP_WORDS + ICMP_CHECK, 0, CsumAdd(x.sum, Not32(p)), false)
  {
    hide CsumDiff, XlateIcmp, L4Replace, Replace, CsumPartial, TotalWord, PseudoSum, CsumAdd, SupportedIcmp;
  }

  lemma To4Icmp(b: Buf, l3: nat, src: u32, dst: u32) returns (k: u16)
    requires Fits6(b, l3) && b.words[l3 + 3] % 256 == ICMPV6
    ensures IsTo4(b, l3, src, dst, k)
  {
    hide ReplaceL4, XlateIcmp, L4Replace, Icmp6To4, PseudoSum, CsumAdd, NewRest, Sum, To4, Front4;
    var rest, front := b.words[l3 + IP6_WORDS..], Front4(b, l3, src, dst);
    var addrs := b.words[l3 + IP6_ADDRS..l3 + IP6_WORDS];
    var r := NewRest(rest, ICMPV6, false);
    To4IsIcmp(b, l3, src, dst);
    XlateIcmpShape(front, rest, b.len - 20, false);
    var x := XlateIcmp(Buf(front + rest, b.len - 20), l3 + IP_WORDS, false);
    var p := PseudoSum(addrs, b.words[l3 + 2], ICMPV6, 0);
    var sum := CsumAdd(x.sum, Not32(p));
    var pseudo := Sum(addrs + [0, b.words[l3 + 2], 0, 256 * ICMPV6]);
    RemovedSum(x.sum, p, Sum(r) - Sum(rest), pseudo);
    k := ReplaceL4(r[ICMP_CHECK], 0, sum, false);
    StoreCk(front, r, b.len - 20, ICMP_CHECK, sum, false, k);
    FixedSum(r, ICMP_CHECK, sum, false, k, Sum(r) - Sum(rest) - pseudo);
    ModShift(Sum(r[ICMP_CHECK := k]) + (Sum(r) - Sum(rest) - pseudo), Sum(r), Sum(rest) - Sum(r));
  }

  lemma RemovedSum(x: u32, p: u32, d: int, pseudo: int)
    requires x % M == d % M && p % M == pseudo % M
    ensures CsumAdd(x, Not32(p)) % M == (d - pseudo) % M
  {
    ModShift(x, d, 0 - pseudo);
    ModShift(p, pseudo, x - p - pseudo);
  }

  lemma To4Ports(b: Buf, l3: nat, src: u32, dst: u32) returns (k: u16)
    requires Fits6(b, l3) && b.words[l3 + 3] % 256 != ICMPV6
    ensures IsTo4(b, l3, src, dst, k)
  {
    hide CsumDiff, ReplaceL4, L4Replace, Icmp6To4, Replace, CsumPartial, TotalWord, Sum;
    var next, rest, front := b.words[l3 + 3] % 256, b.words[l3 + IP6_WORDS..], Front4(b, l3, src, dst);
    var addrs, hdr := b.words[l3 + IP6_ADDRS..l3 + IP6_WORDS], NewHeader4(b, l3, src, dst);
    assert hdr[SADDR..DADDR] == [src % U16, src / U16] && hdr[DADDR..] == [dst % U16, dst / U16];
    var off := CkOffset(next).value;
    var s1 := CsumDiff(addrs[..8], hdr[SADDR..DADDR], 0);
    var sum := CsumDiff(addrs[8..], hdr[DADDR..], s1);
    ModShift(s1, Sum(hdr[SADDR..DADDR]) - Sum(addrs[..8]), Sum(hdr[DADDR..]) - Sum(addrs[8..]));
    k := ReplaceL4(rest[off], 0, sum, next == UDP);
    StoreCk(front, rest, b.len - 20, off, sum, next == UDP, k);
    FixedSum(rest, off, sum, next == UDP, k, Pseudo4(b, l3, src, dst));
  }

  lemma To4Shape(b: Buf, l3: nat, src: u32, dst: u32) returns (k: u16)
    requires Fits6(b, l3)
    ensures IsTo4(b, l3, src, dst, k)
  {
    hide IsTo4;
    if b.words[l3 + 3] % 256 == ICMPV6 {
      k := To4Icmp(b, l3, src, dst);
    } else {
      k := To4Ports(b, l3, src, dst);
    }
  }

  // ---- what survives ----

  lemma {:induction false} SumZeroIff(ws: seq<u16>)
    ensures Sum(ws) > 0 <==> exists i :: 0 <= i < |ws| && ws[i] != 0
  {
    if ws != [] {
      SumZeroIff(ws[1..]);
      assert forall i :: 0 < i < |ws| ==> ws[i] == ws[1..][i - 1];
      if Sum(ws[1..]) > 0 {
        var i :| 0 <= i < |ws[1..]| && ws[1..][i] != 0;
        assert ws[i + 1] != 0;
      }
    }
  }

  /** Something other than the checksum is not zero in the translated L4 data. */
  ghost predicate NotBlank(r: seq<u16>) {
    exists i :: 0 <= i < |r| && i != ICMP_CHECK && r[i] != 0
  }

  /** The fields of the translated packet. */
  lemma OutWords(b: Buf, l3: nat, src: u32, dst: u32, r: seq<u16>, w: seq<u16>)
    requires l3 > 0 && Accessible(b, l3, IP6_WORDS) && w == Front4(b, l3, src, dst) + r
    ensures w[l3..l3 + IP_WORDS] == NewHeader4(b, l3, src, dst) && w[l3 + IP_WORDS..] == r
    ensures w[l3] == 0x45 && w[l3 + 1] == TotalWord(b.words[l3 + 2]) && w[l3 + 2] == 0 && w[l3 + 3] == 0
    ensures w[l3 + IP_TTL] == b.words[l3 + 3] / 256 + 256 * Next4(b.words[l3 + 3] % 256)
    ensures w[l3 + SADDR..l3 + DADDR] == [src % U16, src / U16]
    ensures w[l3 + DADDR..l3 + IP_WORDS] == [dst % U16, dst / U16]
  {
    hide Replace, CsumPartial, TotalWord, Next4;
    var hdr := NewHeader4(b, l3, src, dst);
    assert w[l3..l3 + IP_WORDS] == hdr;
    assert forall i :: 0 <= i < IP_WORDS ==> w[l3..l3 + IP_WORDS][i] == hdr[i];
  }

  lemma ByteOf(hop: u8, next: u8)
    ensures (hop + 256 * next) / 256 == next && (hop + 256 * next) % 256 == hop
  {
  }

  lemma Total4Is(b: Buf, l3: nat, src: u32, dst: u32, r: seq<u16>, out: Buf)
    requires Fits6(b, l3) && Accessible(out, l3, IP_WORDS) && out.words == Front4(b, l3, src, dst) + r
    ensures Total4(out, l3)
         == Total6(b.words[..l3 + IP6_WORDS], b.words[l3 + IP6_WORDS..], l3)
            + Sum(r) + Pseudo4(b, l3, src, dst) - Sum(b.words[l3 + IP6_WORDS..])
    ensures out.words[l3 + IP_TTL] / 256 == Next4(b.words[l3 + 3] % 256)
    ensures out.words[l3 + IP_WORDS..] == r && out.words[l3..l3 + IP_WORDS] == NewHeader4(b, l3, src, dst)
  {
    hide Front4, NewHeader4, SupportedIcmp, Sum, PayloadWord, TotalWord;
    var addrs := b.words[l3 + IP6_ADDRS..l3 + IP6_WORDS];
    OutWords(b, l3, src, dst, r, out.words);
    ByteOf(b.words[l3 + 3] / 256, Next4(b.words[l3 + 3] % 256));
    LengthsAgree(b.words[l3 + 2]);
    assert b.words[..l3 + IP6_WORDS][l3 + IP6_ADDRS..] == addrs == addrs[..8] + addrs[8..];
    SumConcat(addrs[..8], addrs[8..]);
    var t: seq<u16> := [0, b.words[l3 + 2], 0, 256 * ICMPV6];
    SumFour(t);
    SumConcat(addrs, t);
  }

  lemma LengthsAgree(w: u16)
    ensures PayloadWord(TotalWord(w)) == w && TotalWord(PayloadWord(w)) == w
  {
    hide Swap16;
    Swap16Twice(w);
    Swap16Twice((Swap16(w) + 20) % U16);
    Swap16Twice((Swap16(w) + U16 - 20) % U16);
  }

  lemma ModTotal(t4: int, t6: int, sum: int, rest: int)
    requires t4 == t6 + sum - rest && sum % M == rest % M && t6 % M == 0
    ensures t4 % M == 0
  {
  }

  /** The translated packet's header, data and total. */
  lemma To4Total(b: Buf, l3: nat, src: u32, dst: u32, k: u16)
    requires Fits6(b, l3) && Valid6(b, l3) && IsTo4(b, l3, src, dst, k)
    ensures var out := To4(b, l3, src, dst, false);
            var next, rest := b.words[l3 + 3] % 256, b.words[l3 + IP6_WORDS..];
            && out.ret == Ok && Accessible(out.buf, l3, IP_WORDS)
            && out.buf.words[l3 + IP_TTL] / 256 == Next4(next)
            && out.buf.words[l3 + IP_WORDS..] == NewRest(rest, next, false)[CkOffset(next).value := k]
            && (next == ICMPV6 ==> k != 0xffff)
            && Verifies(out.buf.words[l3..l3 + IP_WORDS]) && Total4(out.buf, l3) % M == 0
  {
    hide To4, Valid6, Total4, Total6, Pseudo4, NewRest, Verifies, Front4, SupportedIcmp;
    var out := To4(b, l3, src, dst, false).buf;
    var next, rest := b.words[l3 + 3] % 256, b.words[l3 + IP6_WORDS..];
    var front: seq<u16> := b.words[..l3 + IP6_WORDS];
    var r: seq<u16> := NewRest(rest, next, false)[CkOffset(next).value := k];
    NewHeaderVerifies(b, l3, src, dst);
    assert b.words == front + rest;
    Valid6Iff(b, front, rest, l3);
    Total4Is(b, l3, src, dst, r, out);
    ModTotal(Total4(out, l3), Total6(front, rest, l3), Sum(r) + Pseudo4(b, l3, src, dst), Sum(rest));
  }

  /**
   Back behind an IPv4 header, whose own checksum is valid, a valid L4 checksum stays valid. For TCP
   and UDP always; for ICMP exactly when something besides the checksum is not zero, because the
   incremental update never yields 0xffff.
   */
  lemma To4KeepsChecksum(b: Buf, l3: nat, src: u32, dst: u32)
    requires Fits6(b, l3) && Valid6(b, l3)
    ensures var out := To4(b, l3, src, dst, false);
            var next, rest := b.words[l3 + 3] % 256, b.words[l3 + IP6_WORDS..];
            && out.ret == Ok && Accessible(out.buf, l3, IP_WORDS)
            && Verifies(out.buf.words[l3..l3 + IP_WORDS])
            && (Valid4(out.buf, l3) <==> next != ICMPV6 || NotBlank(NewRest(rest, next, false)))
  {
    hide To4, Valid4, Valid6, Total4, NewRest, Verifies, IsTo4, SupportedIcmp;
    var k := To4Shape(b, l3, src, dst);
    To4Total(b, l3, src, dst, k);
    var out := To4(b, l3, src, dst, false).buf;
    var next, rest := b.words[l3 + 3] % 256, b.words[l3 + IP6_WORDS..];
    Valid4Iff(out, l3);
    TotalPositive(out, l3, NewRest(rest, next, false), k);
  }

  lemma TotalPositive(b: Buf, l3: nat, r: seq<u16>, k: u16)
    requires Accessible(b, l3, IP_WORDS)
    requires var proto := b.words[l3 + IP_TTL] / 256;
             && (proto == ICMP ==> |r| > ICMP_CHECK && b.words[l3 + IP_WORDS..] == r[ICMP_CHECK := k] && k != 0xffff)
    requires b.words[l3 + IP_TTL] / 256 != 0 && Total4(b, l3) % M == 0
    ensures Total4(b, l3) > 0 <==> b.words[l3 + IP_TTL] / 256 != ICMP || NotBlank(r)
  {
    hide PayloadWord;
    if b.words[l3 + IP_TTL] / 256 == ICMP {
      var r' := r[ICMP_CHECK := k];
      SumZeroIff(r');
      SumUpdate(r, ICMP_CHECK, k);
      SumUpdate(r, ICMP_CHECK, 0);
      SumZeroIff(r[ICMP_CHECK := 0]);
      if NotBlank(r) {
        var i :| 0 <= i < |r| && i != ICMP_CHECK && r[i] != 0;
        assert r'[i] != 0;
      } else {
        var blank: seq<u16> := r[ICMP_CHECK := 0];
        assert forall i :: 0 <= i < |blank| ==> blank[i] == 0;
        assert Sum(r') == k;
      }
    }
  }

  // ---- there and back ----

  /** The L4 data after both translations, but for its checksum: only the code of an ICMP echo is cleared. */
  function BackRest(rest: seq<u16>, proto: u8): (r: seq<u16>)
    requires proto == ICMP ==> |rest| >= 4
    ensures |r| == |rest|
  {
    if proto == ICMP then rest[0 := rest[0] % 256] else rest
  }

  predicate IsEcho(rest: seq<u16>)
    requires |rest| >= 4
  {
    rest[0] % 256 == 8 || rest[0] % 256 == 0
  }

  lemma EchoBack(rest: seq<u16>, k: u16)
    requires |rest| >= 4 && IsEcho(rest)
    ensures var r := NewRest(rest, ICMP, true)[ICMP_CHECK := k];
            && SupportedIcmp(rest, true) && SupportedIcmp(r, false)
            && NewRest(r, ICMPV6, false) == BackRest(rest, ICMP)[ICMP_CHECK := k]
  {
  }

  /** The IPv6 packet in between is one that the way back accepts. */
  lemma MiddleFits(b: Buf, l3: nat, src: Addr6, dst: Addr6, k: u16)
    requires Fits4(b, l3) && IsTo6(b, l3, src, dst, k)
    requires b.words[l3 + IP_TTL] / 256 == ICMP ==> IsEcho(b.words[l3 + IP_WORDS..])
    ensures var m := To6(b, l3, src, dst, false).buf;
            && m.len == b.len + 20 && m.words == Front6(b, l3, src, dst) + m.words[l3 + IP6_WORDS..]
            && Fits6(m, l3)
            && m.words[l3 + 3] % 256 == Next6(b.words[l3 + IP_TTL] / 256) && m.words[l3 + 3] / 256 == b.words[l3 + IP_TTL] % 256
            && m.words[l3 + 2] == PayloadWord(b.words[l3 + 1])
            && NewRest(m.words[l3 + IP6_WORDS..], Next6(b.words[l3 + IP_TTL] / 256), false)
               == BackRest(b.words[l3 + IP_WORDS..], b.words[l3 + IP_TTL] / 256)[CkOffset(b.words[l3 + IP_TTL] / 256).value := k]
  {
    hide To6, PayloadWord, Pseudo6, Icmp4To6, Icmp6To4, Front6;
    var proto, rest := b.words[l3 + IP_TTL] / 256, b.words[l3 + IP_WORDS..];
    var m, front := To6(b, l3, src, dst, false).buf, Front6(b, l3, src, dst);
    var r: seq<u16> := NewRest(rest, proto, true)[CkOffset(proto).value := k];
    FrontWords6(b, l3, src, dst);
    assert m.words[l3 + IP6_WORDS..] == r;
    if proto == ICMP {
      EchoBack(rest, k);
    }
  }

  /** How an IPv4 address is embedded: the load balancer's mapped form or the gateway's prefix. */
  datatype Embedding = Mapped | Prefixed(prefix: u32)

  function Embed(em: Embedding, v4: u32): Addr6 {
    match em
    case Mapped => MappedV6(v4)
    case Prefixed(prefix) => PrefixedV6(prefix, v4)
  }

  lemma EmbedInverts(em: Embedding, v4: u32)
    ensures V4Of(Embed(em, v4)) == v4
  {
    MappedIff(Embed(em, v4), if em.Prefixed? then em.prefix else 0, v4);
  }

  /** lb4_to_lb6 and nat46_rfc6052 */
  function Nat46(b: Buf, l3: nat, em: Embedding): Rewritten
    requires l3 > 0 && Accessible(b, l3, IP_WORDS)
  {
    To6(b, l3, Embed(em, Load32(b, l3 + SADDR)), Embed(em, Load32(b, l3 + DADDR)), false)
  }

  /** lb6_to_lb4 and nat64_rfc6052 */
  function Nat64(b: Buf, l3: nat): Rewritten
    requires l3 > 0 && Accessible(b, l3, IP6_WORDS)
  {
    To4(b, l3, V4Of(b.words[l3 + 4..l3 + 12]), V4Of(b.words[l3 + 12..l3 + 20]), false)
  }

  /** Length, hop count, protocol, addresses and payload agree; the cleared fields are zero. */
  predicate CameBack(b: Buf, back: Buf, l3: nat)
    requires Fits4(b, l3)
  {
    var proto, rest := b.words[l3 + IP_TTL] / 256, b.words[l3 + IP_WORDS..];
    var off := CkOffset(proto).value;
    && back.len == b.len
    && back.words[l3] == 0x45 && back.words[l3 + 1] == b.words[l3 + 1]
    && back.words[l3 + 2] == 0 && back.words[l3 + 3] == 0
    && back.words[l3 + IP_TTL] == b.words[l3 + IP_TTL]
    && back.words[l3 + SADDR..l3 + IP_WORDS] == b.words[l3 + SADDR..l3 + IP_WORDS]
    && back.words[l3 + IP_WORDS..] == BackRest(rest, proto)[off := back.words[l3 + IP_WORDS + off]]
  }

  /** TCP, UDP or ICMP echo. */
  predicate Returns(b: Buf, l3: nat) {
    Fits4(b, l3) && (b.words[l3 + IP_TTL] / 256 == ICMP ==> IsEcho(b.words[l3 + IP_WORDS..]))
  }

  /** The packet in between, and the way back written with the original addresses. */
  lemma Middle(b: Buf, l3: nat, em: Embedding) returns (k: u16)
    requires Returns(b, l3)
    ensures IsTo6(b, l3, Embed(em, Load32(b, l3 + SADDR)), Embed(em, Load32(b, l3 + DADDR)), k)
    ensures var m := Nat46(b, l3, em);
            && m.ret == Ok && Fits6(m.buf, l3)
            && Nat64(m.buf, l3) == To4(m.buf, l3, Load32(b, l3 + SADDR), Load32(b, l3 + DADDR), false)
  {
    hide To6, To4, PayloadWord, Pseudo6, Icmp4To6, Icmp6To4, Front6, NewRest;
    var src, dst := Load32(b, l3 + SADDR), Load32(b, l3 + DADDR);
    k := To6Shape(b, l3, Embed(em, src), Embed(em, dst));
    MiddleFits(b, l3, Embed(em, src), Embed(em, dst), k);
    MiddleAddrs(b, l3, em, src, dst, Nat46(b, l3, em).buf.words);
  }

  /**
   NAT46 and then NAT64 give back length, hop count, protocol, addresses and payload, with type of
   service, id, fragment fields and the code of an echo cleared; the IPv4 header checksum is valid.
   */
  lemma ThereAndBack(b: Buf, l3: nat, em: Embedding)
    requires Returns(b, l3)
    ensures var m := Nat46(b, l3, em);
            && m.ret == Ok && Accessible(m.buf, l3, IP6_WORDS)
            && var back := Nat64(m.buf, l3);
               && back.ret == Ok && CameBack(b, back.buf, l3)
               && Verifies(back.buf.words[l3..l3 + IP_WORDS])
  {
    hide To6, To4, PayloadWord, Front4, NewHeader4, Verifies, Nat46, Nat64, BackRest, SupportedIcmp, IsTo6;
    var m := Nat46(b, l3, em);
    var k := BackShape(b, l3, em, m);
    var proto, rest := b.words[l3 + IP_TTL] / 256, b.words[l3 + IP_WORDS..];
    BackWords(b, l3, m.buf, BackRest(rest, proto)[CkOffset(proto).value := k], Nat64(m.buf, l3).buf.words);
    NewHeaderVerifies(m.buf, l3, Load32(b, l3 + SADDR), Load32(b, l3 + DADDR));
  }

  /** Both ways together, as stores. */
  lemma BackShape(b: Buf, l3: nat, em: Embedding, m: Rewritten) returns (k: u16)
    requires Returns(b, l3) && m == Nat46(b, l3, em)
    ensures m.ret == Ok && Fits6(m.buf, l3) && m.buf.words[l3 + 2] == PayloadWord(b.words[l3 + 1])
    ensures m.buf.words[l3 + 3] % 256 == Next6(b.words[l3 + IP_TTL] / 256)
    ensures m.buf.words[l3 + 3] / 256 == b.words[l3 + IP_TTL] % 256
    ensures Nat64(m.buf, l3).ret == Ok && Nat64(m.buf, l3).buf.len == b.len
    ensures var proto := b.words[l3 + IP_TTL] / 256;
            Nat64(m.buf, l3).buf.words
            == Front4(m.buf, l3, Load32(b, l3 + SADDR), Load32(b, l3 + DADDR))
               + BackRest(b.words[l3 + IP_WORDS..], proto)[CkOffset(proto).value := k]
  {
    hide To6, To4, PayloadWord, Pseudo4, Front6, NewRest, Front4, Nat46, Nat64, SupportedIcmp, IsTo6;
    var proto := b.words[l3 + IP_TTL] / 256;
    var k0 := Middle(b, l3, em);
    Nat46IsTo6(b, l3, em);
    MiddleFits(b, l3, Embed(em, Load32(b, l3 + SADDR)), Embed(em, Load32(b, l3 + DADDR)), k0);
    k := To4Shape(m.buf, l3, Load32(b, l3 + SADDR), Load32(b, l3 + DADDR));
    assert CkOffset(Next6(proto)) == CkOffset(proto);
  }

  lemma Nat46IsTo6(b: Buf, l3: nat, em: Embedding)
    requires l3 > 0 && Accessible(b, l3, IP_WORDS)
    ensures Nat46(b, l3, em) == To6(b, l3, Embed(em, Load32(b, l3 + SADDR)), Embed(em, Load32(b, l3 + DADDR)), false)
  {
  }

  lemma MiddleAddrs(b: Buf, l3: nat, em: Embedding, src: u32, dst: u32, w: seq<u16>)
    requires l3 > 0 && Accessible(b, l3, IP_WORDS) && |w| >= l3 + IP6_WORDS
    requires w == Front6(b, l3, Embed(em, src), Embed(em, dst)) + w[l3 + IP6_WORDS..]
    ensures V4Of(w[l3 + 4..l3 + 12]) == src && V4Of(w[l3 + 12..l3 + 20]) == dst
  {
    hide Front6;
    FrontWords6(b, l3, Embed(em, src), Embed(em, dst));
    var a := Front6(b, l3, Embed(em, src), Embed(em, dst))[l3 + IP6_ADDRS..];
    assert w[l3 + 4..l3 + 12] == a[..8] == Embed(em, src);
    assert w[l3 + 12..l3 + 20] == a[8..] == Embed(em, dst);
    EmbedInverts(em, src);
    EmbedInverts(em, dst);
  }

  lemma BackWords(b: Buf, l3: nat, m: Buf, r: seq<u16>, w: seq<u16>)
    requires l3 > 0 && Accessible(b, l3, IP_WORDS) && Accessible(m, l3, IP6_WORDS)
    requires b.words[l3 + IP_TTL] / 256 != ICMPV6
    requires m.words[l3 + 3] % 256 == Next6(b.words[l3 + IP_TTL] / 256) && m.words[l3 + 3] / 256 == b.words[l3 + IP_TTL] % 256
    requires m.words[l3 + 2] == PayloadWord(b.words[l3 + 1])
    requires w == Front4(m, l3, Load32(b, l3 + SADDR), Load32(b, l3 + DADDR)) + r
    ensures w[l3..l3 + IP_WORDS] == NewHeader4(m, l3, Load32(b, l3 + SADDR), Load32(b, l3 + DADDR)) && w[l3 + IP_WORDS..] == r
    ensures w[l3] == 0x45 && w[l3 + 1] == b.words[l3 + 1] && w[l3 + 2] == 0 && w[l3 + 3] == 0
    ensures w[l3 + IP_TTL] == b.words[l3 + IP_TTL]
    ensures w[l3 + SADDR..l3 + IP_WORDS] == b.words[l3 + SADDR..l3 + IP_WORDS]
  {
    hide PayloadWord, TotalWord, Front4, NewHeader4;
    LengthsAgree(b.words[l3 + 1]);
    OutWords(m, l3, Load32(b, l3 + SADDR), Load32(b, l3 + DADDR), r, w);
    WordHalves(b.words[l3 + SADDR], b.words[l3 + SADDR + 1]);
    WordHalves(b.words[l3 + DADDR], b.words[l3 + DADDR + 1]);
    assert w[l3 + SADDR..l3 + IP_WORDS] == w[l3 + SADDR..l3 + DADDR] + w[l3 + DADDR..l3 + IP_WORDS];
  }

  lemma WordHalves(lo: u16, hi: u16)
    ensures Word32(lo, hi) % U16 == lo && Word32(lo, hi) / U16 == hi
  {
  }

  lemma NotBlankUpdate(r: seq<u16>, k: u16)
    requires |r| > ICMP_CHECK
    ensures NotBlank(r[ICMP_CHECK := k]) <==> NotBlank(r)
  {
    var r' := r[ICMP_CHECK := k];
    if NotBlank(r) {
      var i :| 0 <= i < |r| && i != ICMP_CHECK && r[i] != 0;
      assert r'[i] != 0;
    }
  }

  /** Both steps keep a valid L4 checksum valid; the way back except for a blank echo reply. */
  lemma ChecksumThereAndBack(b: Buf, l3: nat, em: Embedding)
    requires Returns(b, l3) && Valid4(b, l3)
    ensures var m := Nat46(b, l3, em);
            && m.ret == Ok && Accessible(m.buf, l3, IP6_WORDS) && Valid6(m.buf, l3)
            && var back := Nat64(m.buf, l3);
               && back.ret == Ok && Accessible(back.buf, l3, IP_WORDS)
               && var proto, rest := b.words[l3 + IP_TTL] / 256, b.words[l3 + IP_WORDS..];
                  (Valid4(back.buf, l3) <==> proto != ICMP || NotBlank(BackRest(rest, proto)))
  {
    hide To6, To4, Valid4, Valid6, Pseudo6, Icmp4To6, Icmp6To4, Front6, NewRest, PayloadWord, Nat46, Nat64;
    var src, dst := Load32(b, l3 + SADDR), Load32(b, l3 + DADDR);
    var proto, rest := b.words[l3 + IP_TTL] / 256, b.words[l3 + IP_WORDS..];
    var k := Middle(b, l3, em);
    Nat46IsTo6(b, l3, em);
    To6KeepsChecksum(b, l3, Embed(em, src), Embed(em, dst));
    MiddleFits(b, l3, Embed(em, src), Embed(em, dst), k);
    To4KeepsChecksum(Nat46(b, l3, em).buf, l3, src, dst);
    if proto == ICMP {
      NotBlankUpdate(BackRest(rest, proto), k);
    }
  }

  /** The exception exists: an echo reply without payload, with id and sequence zero. */
  lemma BlankEchoReplyBreaks(b: Buf, l3: nat, em: Embedding)
    requires Fits4(b, l3) && b.words[l3 + IP_TTL] / 256 == ICMP && b.words[l3 + IP_WORDS..] == [0, 0xffff, 0, 0]
    ensures Valid4(b, l3)
    ensures var m := Nat46(b, l3, em).buf;
            && Accessible(m, l3, IP6_WORDS)
            && var back := Nat64(m, l3).buf; Accessible(back, l3, IP_WORDS) && !Valid4(back, l3)
  {
    hide To6, To4, Icmp4To6, Icmp6To4, Nat46, Nat64;
    var rest: seq<u16> := [0, 0xffff, 0, 0];
    SumFour(rest);
    VerifiesIff(rest);
    assert BackRest(rest, ICMP) == rest && !NotBlank(rest);
    ChecksumThereAndBack(b, l3, em);
  }
}
