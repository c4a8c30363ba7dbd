/**
 Translation of ICMP errors in bpf/lib/nat.h: the packet embedded in the error is translated
 like the flow it belongs to, and the outer ICMP checksum is fixed by one computed difference.
 */
module IcmpError {
  import opened Net
  import opened Checksum
  import opened Packet
  import opened Snat
  import opened Translation

  const ECHO_REPLY := 0
  const ECHO := 8
  const ICMP_WORDS := 4

  /** The NAT key found in the embedded packet, and where its port sits. */
  datatype Loaded = Loaded(key: Tuple, portOff: nat) | NotLoaded(ret: Ret)

  function LoadKey(b: Buf, inner: nat, l4: nat, egress: bool): Loaded
    requires Accessible(b, inner, IP_WORDS)
  {
    var proto := Protocol(b, inner);
    var key := Tuple(Load32(b, inner + SADDR), Load32(b, inner + DADDR), 0, 0, proto, if egress then OUT else IN);
    if proto == TCP || proto == UDP then
      if !Accessible(b, l4, 2) then NotLoaded(DropInvalid)
      else Loaded(key.(dport := b.words[l4], sport := b.words[l4 + 1]), if egress then DPORT else SPORT)
    else if proto == ICMP then
      if 2 * l4 + 1 > b.len then NotLoaded(DropInvalid)
      else
        var icmpType := b.words[l4] % 256;
        if icmpType == (if egress then ECHO else ECHO_REPLY) then NotLoaded(PuntToStack)
        else if icmpType != (if egress then ECHO_REPLY else ECHO) then NotLoaded(DropUnknownIcmpCode)
        else if !Accessible(b, l4 + ICMP_ID, 1) then NotLoaded(DropInvalid)
        else if egress then Loaded(key.(sport := b.words[l4 + ICMP_ID]), ICMP_ID)
        else Loaded(key.(dport := b.words[l4 + ICMP_ID]), ICMP_ID)
    else NotLoaded(if egress then DropUnknownL4 else PuntToStack)
  }

  /** How far the embedded packet moves the outer ICMP checksum. */
  function CalcDiff(oldAddr: u32, newAddr: u32, oldPort: u16, newPort: u16, innerHasCsum: bool): u32 {
    if innerHasCsum then if oldAddr != newAddr then CsumDiff4(newAddr, oldAddr) else 0
    else if oldPort != newPort then CsumDiff4(oldPort, newPort) else 0
  }

  datatype Handled = Handled(buf: Buf, ret: Ret, entry: Option<NatEntry>, diff: u32)

  /** The rewriting of the embedded packet: its destination on egress, its source on ingress. */
  function InnerRewriting(key: Tuple, portOff: nat, e: NatEntry, inner: nat, l4: nat, egress: bool): Rewriting {
    if egress then Rewriting(key.nexthdr, inner, true, l4, key.saddr, e.addr, DADDR, key.sport, e.port, portOff, 0)
    else Rewriting(key.nexthdr, inner, true, l4, key.daddr, e.addr, SADDR, key.dport, e.port, portOff, 0)
  }

  /** The embedded TCP header is cut before its checksum. */
  predicate Truncated(b: Buf, inner: nat, proto: u8)
    requires Accessible(b, inner, IP_WORDS)
  {
    proto == TCP && b.len - 2 * inner < 2 * HdrWords(b, inner) + 2 * TCP_CHECK + 2
  }

  function HandleLoaded(b: Buf, m: Table, key: Tuple, portOff: nat, inner: nat, l4: nat, egress: bool): (h: Handled)
    requires Accessible(b, inner, IP_WORDS)
    ensures h.buf.len == b.len
  {
    if key !in m then Handled(b, PuntToStack, None, 0)
    else if key.nexthdr == UDP && !Accessible(b, l4 + UDP_CHECK, 1) then Handled(b, DropInvalid, Some(m[key]), 0)
    else
      var w := InnerRewriting(key, portOff, m[key], inner, l4, egress);
      var hasCsum := !Truncated(b, inner, key.nexthdr);
      var enabled := !(key.nexthdr == UDP && b.words[l4 + UDP_CHECK] == 0);
      var rw := Rewrite(b, w);
      Handled(rw.buf, if !hasCsum && rw.ret == DropCsumL4 then Ok else rw.ret, Some(m[key]),
              CalcDiff(w.oldAddr, w.newAddr, w.oldPort, w.newPort, hasCsum && enabled))
  }

  function HandleError(b: Buf, m: Table, off: nat, egress: bool): (h: Handled)
    ensures h.buf.len == b.len
  {
    var inner := off + ICMP_WORDS;
    if !Accessible(b, inner, IP_WORDS) then Handled(b, DropInvalid, None, 0)
    else
      var l4 := inner + HdrWords(b, inner);
      match LoadKey(b, inner, l4, egress)
      case NotLoaded(ret) => Handled(b, ret, None, 0)
      case Loaded(key, portOff) => HandleLoaded(b, m, key, portOff, inner, l4, egress)
  }

  /** The outer rewriting: no port, but the difference of the embedded packet. */
  function OuterRewriting(b: Buf, e: NatEntry, diff: u32, l3: nat, off: nat, egress: bool): Rewriting
    requires Accessible(b, l3, IP_WORDS)
  {
    var addrOff := if egress then SADDR else DADDR;
    Rewriting(ICMP, l3, true, off, Load32(b, l3 + addrOff), e.addr, addrOff, 0, 0, 0, diff)
  }

  /** An ICMP error with IPv4 header at `l3` and ICMP header at `off` passes the NAT. */
  function TranslateError(b: Buf, m: Table, l3: nat, off: nat, egress: bool): (r: Rewritten)
    requires Accessible(b, l3, IP_WORDS)
    ensures r.buf.len == b.len
  {
    var h := HandleError(b, m, off, egress);
    if h.ret != Ok || h.entry.None? then Rewritten(h.buf, h.ret)
    else Rewrite(h.buf, OuterRewriting(b, h.entry.value, h.diff, l3, off, egress))
  }

  method HandleIcmpError(ctx: Ctx, m: Table, off: nat, egress: bool)
    returns (ret: Ret, entry: Option<NatEntry>, diff: u32)
    modifies ctx
    ensures Handled(ctx.buf, ret, entry, diff) == HandleError(old(ctx.buf), m, off, egress)
  {
    var b := ctx.buf;
    var inner := off + ICMP_WORDS;
    if !Accessible(b, inner, IP_WORDS) {
      return DropInvalid, None, 0;
    }
    var l4 := inner + HdrWords(b, inner);
    var loaded := LoadKey(b, inner, l4, egress);
    if loaded.NotLoaded? {
      return loaded.ret, None, 0;
    }
    ret, entry, diff := RewriteLoaded(ctx, m, loaded.key, loaded.portOff, inner, l4, egress);
  }

  method RewriteLoaded(ctx: Ctx, m: Table, key: Tuple, portOff: nat, inner: nat, l4: nat, egress: bool)
    returns (ret: Ret, entry: Option<NatEntry>, diff: u32)
    requires Accessible(ctx.buf, inner, IP_WORDS)
    modifies ctx
    ensures Handled(ctx.buf, ret, entry, diff) == HandleLoaded(old(ctx.buf), m, key, portOff, inner, l4, egress)
  {
    var b := ctx.buf;
    if key !in m {
      return PuntToStack, None, 0;
    }
    entry := Some(m[key]);
    var hasCsum, enabled := true, true;
    if Truncated(b, inner, key.nexthdr) {
      hasCsum := false;
    }
    if key.nexthdr == UDP {
      if !Accessible(b, l4 + UDP_CHECK, 1) {
        return DropInvalid, entry, 0;
      }
      if b.words[l4 + UDP_CHECK] == 0 {
        enabled := false;
      }
    }
    var w := InnerRewriting(key, portOff, m[key], inner, l4, egress);
    diff := CalcDiff(w.oldAddr, w.newAddr, w.oldPort, w.newPort, hasCsum && enabled);
    ret := ctx.RewriteHeaders(w);
    if !hasCsum && ret == DropCsumL4 {
      ret := Ok;
    }
  }

  method Translate(ctx: Ctx, m: Table, l3: nat, off: nat, egress: bool) returns (ret: Ret)
    requires Accessible(ctx.buf, l3, IP_WORDS)
    modifies ctx
    ensures Rewritten(ctx.buf, ret) == TranslateError(old(ctx.buf), m, l3, off, egress)
  {
    var b := ctx.buf;
    var entry, diff;
    ret, entry, diff := HandleIcmpError(ctx, m, off, egress);
    if ret == Ok && entry.Some? {
      ret := ctx.RewriteHeaders(OuterRewriting(b, entry.value, diff, l3, off, egress));
    }
  }

  // ---- the checksum argument ----

  /** The words before `off + 4` are untouched, and the ICMP range moved by `diff`. */
  ghost predicate MovedBy(b: Buf, b': Buf, off: nat, diff: u32)
    requires off + ICMP_WORDS <= |b.words|
  {
    && b'.len == b.len
    && b'.words[..off + ICMP_WORDS] == b.words[..off + ICMP_WORDS]
    && (Sum(b'.words[off..]) - Sum(b.words[off..]) - diff) % M == 0
  }

  lemma StoredL3From(w: seq<u16>, f: Frame, ch: Change, ip: u16, off: nat)
    requires ch.Valid() && f.l3 + IP_WORDS <= |w| && off <= f.l3
    ensures Sum(StoredL3(w, f, ch, ip)[off..]) == Sum(w[off..]) + AddrDelta(w, f, ch) + Delta(w, f.l3 + IP_CHECK, ip)
    ensures StoredL3(w, f, ch, ip)[..f.l3] == w[..f.l3]
  {
    var r: seq<u16> := w[off..];
    var x := f.l3 - off;
    assert StoredL3(w, f, ch, ip)[off..] == r[x + ch.addrOff := ch.lo][x + ch.addrOff + 1 := ch.hi][x + IP_CHECK := ip];
    ThreeStores(r, x + ch.addrOff, ch.lo, x + ch.addrOff + 1, ch.hi, x + IP_CHECK, ip);
  }

  /** The translation of a whole embedded header, seen from the ICMP header at `off`. */
  lemma StoredFrom(w: seq<u16>, f: Frame, ch: Change, ip: u16, k: u16, off: nat)
    requires ch.Valid() && Holds(w, f) && off <= f.l3
    ensures Sum(Stored(w, f, ch, ip, k)[off..]) == Sum(w[off..]) + AddrDelta(w, f, ch)
              + Delta(w, f.l3 + IP_CHECK, ip) + Delta(w, f.l4 + ch.portOff, ch.port) + Delta(w, f.Ck(), k)
    ensures Stored(w, f, ch, ip, k)[..f.l3] == w[..f.l3]
  {
    var w3 := StoredL3(w, f, ch, ip);
    StoredL3From(w, f, ch, ip, off);
    assert Stored(w, f, ch, ip, k)[off..] == w3[off..][f.l4 - off + ch.portOff := ch.port][f.Ck() - off := k];
    TwoStores(w3[off..], f.l4 - off + ch.portOff, ch.port, f.Ck() - off, k);
  }

  lemma CalcDiffIs(oldAddr: u32, newAddr: u32, oldPort: u16, newPort: u16)
    ensures CalcDiff(oldAddr, newAddr, oldPort, newPort, true) % M == (oldAddr - newAddr) % M
    ensures CalcDiff(oldAddr, newAddr, oldPort, newPort, false) % M == (newPort - oldPort) % M
  {
  }

  lemma WholeInnerMoves(b: Buf, b': Buf, f: Frame, ch: Change, off: nat, diff: u32)
    requires f.In(b) && ch.Valid() && Translated(b, b', f, ch) && f.l3 == off + ICMP_WORDS
    requires diff % M == (if f.proto == UDP && b.words[f.Ck()] == 0 then Delta(b.words, f.l4 + ch.portOff, ch.port)
                          else Load32(b, f.l3 + ch.addrOff) - ch.Addr()) % M
    ensures MovedBy(b, b', off, diff)
  {
    hide Sum, Load32;
    var w, ip, k := b.words, b'.words[f.l3 + IP_CHECK], b'.words[f.Ck()];
    assert b'.words[..off + ICMP_WORDS] == b'.words[..f.l3];
    StoredFrom(w, f, ch, ip, k, off);
    var da, dip := AddrDelta(w, f, ch), Delta(w, f.l3 + IP_CHECK, ip);
    var dp, dk := Delta(w, f.l4 + ch.portOff, ch.port), Delta(w, f.Ck(), k);
    if f.proto == UDP && w[f.Ck()] == 0 {
      CancelAbsent(da, dip, dp, diff);
    } else {
      AddrDeltaIs(b, f, ch);
      CancelPresent(da, dip, dp, dk, diff, Load32(b, f.l3 + ch.addrOff), ch.Addr());
    }
  }

  lemma CancelAbsent(da: int, dip: int, dp: int, diff: u32)
    requires (dip + da) % M == 0 && (diff % M == dp % M)
    ensures (da + dip + dp - diff) % M == 0
  {
  }

  lemma CancelPresent(da: int, dip: int, dp: int, dk: int, diff: u32, oldAddr: u32, newAddr: u32)
    requires (dip + da) % M == 0 && (dk + dp + da) % M == 0
    requires (newAddr - oldAddr) % M == da % M && diff % M == (oldAddr - newAddr) % M
    ensures (da + dip + dp + dk - diff) % M == 0
  {
  }

  /** A truncated TCP header: only the addresses, the IP checksum and the port are stored. */
  lemma TruncatedInnerShape(b: Buf, w: Rewriting, f: Frame, ch: Change, ip: u16)
    requires ch.Valid() && f.proto == TCP && f.l3 + IP_WORDS <= f.l4
    requires Accessible(b, f.l4, 2) && !Accessible(b, f.l4 + TCP_CHECK, 1)
    requires w == Rewriting(TCP, f.l3, true, f.l4, Load32(b, f.l3 + ch.addrOff), ch.Addr(), ch.addrOff,
                            b.words[f.l4 + ch.portOff], ch.port, ch.portOff, 0)
    requires !(w.oldAddr == w.newAddr && w.oldPort == w.newPort)
    requires ip == Replace(b.words[f.l3 + IP_CHECK], 0, CsumDiff4(w.oldAddr, w.newAddr))
    ensures Rewrite(b, w) == Rewritten(b.(words := StoredL3(b.words, f, ch, ip)[f.l4 + ch.portOff := ch.port]), DropCsumL4)
  {
    var sum := CsumDiff4(w.oldAddr, w.newAddr);
    var b3: Buf := b.(words := StoredL3(b.words, f, ch, ip));
    RewriteL3Shape(b, w, f, ch, sum, ip);
    if w.oldPort == w.newPort {
      assert b3.words[f.l4 + ch.portOff := ch.port] == b3.words;
    }
  }

  lemma TruncatedInnerMoves(b: Buf, f: Frame, ch: Change, off: nat, ip: u16, sum: u32, diff: u32)
    requires ch.Valid() && f.l3 + IP_WORDS <= f.l4 && f.l3 == off + ICMP_WORDS && Accessible(b, f.l4, 2)
    requires sum % M == (ch.Addr() - Load32(b, f.l3 + ch.addrOff)) % M
    requires ip == Replace(b.words[f.l3 + IP_CHECK], 0, sum)
    requires diff % M == Delta(b.words, f.l4 + ch.portOff, ch.port) % M
    ensures MovedBy(b, b.(words := StoredL3(b.words, f, ch, ip)[f.l4 + ch.portOff := ch.port]), off, diff)
  {
    hide Sum, Replace;
    var w3 := StoredL3(b.words, f, ch, ip);
    StoredL3From(b.words, f, ch, ip, off);
    assert w3[f.l4 + ch.portOff := ch.port][off..] == w3[off..][f.l4 - off + ch.portOff := ch.port];
    SumUpdate(w3[off..], f.l4 - off + ch.portOff, ch.port);
    AddrDeltaIs(b, f, ch);
    var da := AddrDelta(b.words, f, ch);
    FixedIpMoves(b.words[f.l3 + IP_CHECK], sum, da);
    CancelAbsent(da, Delta(b.words, f.l3 + IP_CHECK, ip), Delta(b.words, f.l4 + ch.portOff, ch.port), diff);
  }

  /** The embedded packet is TCP or UDP with a well-formed IPv4 header. */
  predicate InnerTcpUdp(b: Buf, off: nat) {
    && Accessible(b, off + ICMP_WORDS, IP_WORDS)
    && (Protocol(b, off + ICMP_WORDS) == TCP || Protocol(b, off + ICMP_WORDS) == UDP)
    && HdrWords(b, off + ICMP_WORDS) >= IP_WORDS
  }

  /** The rewriting that replaces the fields named by `ch` in the packet framed by `f`. */
  function RewritingOf(b: Buf, f: Frame, ch: Change): Rewriting
    requires ch.Valid() && Accessible(b, f.l3, IP_WORDS) && Accessible(b, f.l4, 2)
  {
    Rewriting(f.proto, f.l3, true, f.l4, Load32(b, f.l3 + ch.addrOff), ch.Addr(), ch.addrOff,
              b.words[f.l4 + ch.portOff], ch.port, ch.portOff, 0)
  }

  lemma TruncatedMoves(b: Buf, f: Frame, ch: Change, off: nat, diff: u32)
    requires ch.Valid() && f.proto == TCP && f.l3 + IP_WORDS <= f.l4 && f.l3 == off + ICMP_WORDS
    requires Accessible(b, f.l4, 2) && !Accessible(b, f.l4 + TCP_CHECK, 1)
    requires diff % M == Delta(b.words, f.l4 + ch.portOff, ch.port) % M
    ensures MovedBy(b, Rewrite(b, RewritingOf(b, f, ch)).buf, off, diff)
  {
    hide Replace, CsumDiff4, Sum, MovedBy;
    var w := RewritingOf(b, f, ch);
    if w.oldAddr == w.newAddr && w.oldPort == w.newPort {
      MovedByNothing(b, off, diff);
    } else {
      var sum := CsumDiff4(w.oldAddr, w.newAddr);
      var ip := Replace(b.words[f.l3 + IP_CHECK], 0, sum);
      TruncatedInnerShape(b, w, f, ch, ip);
      TruncatedInnerMoves(b, f, ch, off, ip, sum, diff);
    }
  }

  lemma MovedByNothing(b: Buf, off: nat, diff: u32)
    requires off + ICMP_WORDS <= |b.words| && diff % M == 0
    ensures MovedBy(b, b, off, diff)
  {
  }

  lemma WholeMoves(b: Buf, f: Frame, ch: Change, off: nat, diff: u32)
    requires ch.Valid() && f.In(b) && f.l3 == off + ICMP_WORDS && Accessible(b, f.l4, 2)
    requires diff % M == (if f.proto == UDP && b.words[f.Ck()] == 0 then Delta(b.words, f.l4 + ch.portOff, ch.port)
                          else Load32(b, f.l3 + ch.addrOff) - ch.Addr()) % M
    ensures MovedBy(b, Rewrite(b, RewritingOf(b, f, ch)).buf, off, diff)
  {
    hide Rewrite;
    RewriteTranslates(b, RewritingOf(b, f, ch), f, ch);
    WholeInnerMoves(b, Rewrite(b, RewritingOf(b, f, ch)).buf, f, ch, off, diff);
  }

  /** The frame and the change that the handler of an embedded TCP or UDP packet works on. */
  function InnerFrame(b: Buf, off: nat): Frame
    requires InnerTcpUdp(b, off)
  {
    var inner := off + ICMP_WORDS;
    Frame(inner, inner + HdrWords(b, inner), Protocol(b, inner))
  }

  function InnerChange(e: NatEntry, egress: bool): Change {
    if egress then ChangeTo(DADDR, e.addr, DPORT, e.port) else ChangeTo(SADDR, e.addr, SPORT, e.port)
  }

  /** The key under which an embedded TCP or UDP packet is looked up. */
  function InnerKey(b: Buf, off: nat, egress: bool): Tuple
    requires InnerTcpUdp(b, off) && Accessible(b, InnerFrame(b, off).l4, 2)
  {
    var f := InnerFrame(b, off);
    Tuple(Load32(b, f.l3 + SADDR), Load32(b, f.l3 + DADDR), b.words[f.l4], b.words[f.l4 + 1], f.proto,
          if egress then OUT else IN)
  }

  /** What the handler does with an embedded TCP or UDP packet that it accepts. */
  lemma HandledShape(b: Buf, m: Table, off: nat, egress: bool)
    requires InnerTcpUdp(b, off) && HandleError(b, m, off, egress).ret == Ok
    ensures var f := InnerFrame(b, off);
            var h := HandleError(b, m, off, egress);
            && Accessible(b, f.l4, 2)
            && var key := InnerKey(b, off, egress);
               && key in m && h.entry == Some(m[key])
               && var ch := InnerChange(m[key], egress);
                  && h.buf == Rewrite(b, RewritingOf(b, f, ch)).buf
                  && (f.proto == UDP || f.In(b) || !Accessible(b, f.l4 + TCP_CHECK, 1))
                  && (f.proto == UDP ==> f.In(b))
                  && h.diff == CalcDiff(Load32(b, f.l3 + ch.addrOff), ch.Addr(), b.words[f.l4 + ch.portOff], ch.port,
                                        f.In(b) && !(f.proto == UDP && b.words[f.Ck()] == 0))
  {
    hide Rewrite, CalcDiff, Replace;
  }

  lemma InnerMoves(b: Buf, m: Table, off: nat, egress: bool)
    requires InnerTcpUdp(b, off) && HandleError(b, m, off, egress).ret == Ok
    ensures var h := HandleError(b, m, off, egress);
            h.entry.Some? && MovedBy(b, h.buf, off, h.diff)
  {
    hide HandleError, Rewrite, CalcDiff;
    HandledShape(b, m, off, egress);
    var f := InnerFrame(b, off);
    var ch := InnerChange(m[InnerKey(b, off, egress)], egress);
    var diff := HandleError(b, m, off, egress).diff;
    CalcDiffIs(Load32(b, f.l3 + ch.addrOff), ch.Addr(), b.words[f.l4 + ch.portOff], ch.port);
    if f.In(b) {
      WholeMoves(b, f, ch, off, diff);
    } else {
      TruncatedMoves(b, f, ch, off, diff);
    }
  }

  predicate IsOuter(w: Rewriting, off: nat) {
    && w.l3 + IP_WORDS <= off && (w.addrOff == SADDR || w.addrOff == DADDR)
    && w == Rewriting(ICMP, w.l3, true, off, w.oldAddr, w.newAddr, w.addrOff, 0, 0, 0, w.innerDiff)
  }

  /** The outer rewriting: the IPv4 header, then one fix of the ICMP checksum if there is a difference. */
  lemma OuterShape(b: Buf, w: Rewriting, off: nat)
    requires Accessible(b, off, ICMP_WORDS) && IsOuter(w, off)
    requires !(w.oldAddr == w.newAddr && w.innerDiff == 0)
    ensures var b2 := RewriteL3(b, w, CsumDiff4(w.oldAddr, w.newAddr)).buf;
            && b2.words[off..] == b.words[off..]
            && Rewrite(b, w) == if w.innerDiff == 0 then Rewritten(b2, Ok)
                                else L4Replace(b2, off + ICMP_CHECK, 0, w.innerDiff, false)
  {
    hide Replace, CsumDiff4, ReplaceL4;
  }

  /** The outer rewriting takes the embedded packet's difference back out of the checksum. */
  lemma OuterCancels(b: Buf, w: Rewriting, off: nat)
    requires Accessible(b, off, ICMP_WORDS) && IsOuter(w, off)
    ensures Rewrite(b, w).ret == Ok
    ensures (Sum(Rewrite(b, w).buf.words[off..]) - Sum(b.words[off..]) + w.innerDiff) % M == 0
    ensures Rewrite(b, w).buf.words[off] == b.words[off]
  {
    hide Rewrite, RewriteL3, CsumDiff4;
    if w.oldAddr == w.newAddr && w.innerDiff == 0 {
      RewriteNothing(b, w);
    } else {
      OuterShape(b, w, off);
      var b2 := RewriteL3(b, w, CsumDiff4(w.oldAddr, w.newAddr)).buf;
      assert b2.words[off] == b2.words[off..][0];
      if w.innerDiff != 0 {
        var k := ReplaceL4(b2.words[off + ICMP_CHECK], 0, w.innerDiff, false);
        assert b2.words[off + ICMP_CHECK := k][off..] == b2.words[off..][ICMP_CHECK := k];
        SumUpdate(b2.words[off..], ICMP_CHECK, k);
        assert Rewrite(b, w).buf.words == b2.words[off + ICMP_CHECK := k];
      }
    }
  }

  /** The embedded packet that the flow's own NAT translated comes back as the flow sent it. */
  lemma ErrorRestoresFlow(b: Buf, m: Table, off: nat, o: Tuple)
    requires InnerTcpUdp(b, off) && HandleError(b, m, off, false).ret == Ok
    requires Paired(m) && IsFwd(o) && o in m
    requires var f := InnerFrame(b, off);
             && Accessible(b, f.l4, 2) && f.proto == o.nexthdr
             && Load32(b, f.l3 + SADDR) == m[o].addr && b.words[f.l4 + SPORT] == m[o].port
             && Load32(b, f.l3 + DADDR) == o.daddr && b.words[f.l4 + DPORT] == o.dport
    ensures var f, b' := InnerFrame(b, off), HandleError(b, m, off, false).buf;
            && Load32(b', f.l3 + SADDR) == o.saddr && b'.words[f.l4 + SPORT] == o.sport
            && Load32(b', f.l3 + DADDR) == o.daddr && b'.words[f.l4 + DPORT] == o.dport
  {
    hide HandleError, Rewrite, CalcDiff;
    HandledShape(b, m, off, false);
    assert FwdPaired(m, o);
    var f := InnerFrame(b, off);
    assert InnerKey(b, off, false) == RevTuple(o, m[o].addr, m[o].port);
    FieldsAfter(b, f, InnerChange(m[InnerKey(b, off, false)], false));
  }

  /** Rewriting leaves exactly the new address and port in the two fields. */
  lemma FieldsAfter(b: Buf, f: Frame, ch: Change)
    requires ch == ChangeTo(SADDR, ch.Addr(), SPORT, ch.port)
    requires || f.In(b)
             || (f.proto == TCP && f.l3 + IP_WORDS <= f.l4 && Accessible(b, f.l4, 2) && !Accessible(b, f.l4 + TCP_CHECK, 1))
    ensures var b' := Rewrite(b, RewritingOf(b, f, ch)).buf;
            && b'.len == b.len
            && Load32(b', f.l3 + SADDR) == ch.Addr() && b'.words[f.l4 + SPORT] == ch.port
            && Load32(b', f.l3 + DADDR) == Load32(b, f.l3 + DADDR) && b'.words[f.l4 + DPORT] == b.words[f.l4 + DPORT]
  {
    hide Rewrite, Replace, CsumDiff4;
    var w := RewritingOf(b, f, ch);
    if f.In(b) {
      RewriteTranslates(b, w, f, ch);
    } else if w.oldAddr == w.newAddr && w.oldPort == w.newPort {
      RewriteNothing(b, w);
    } else {
      TruncatedInnerShape(b, w, f, ch, Replace(b.words[f.l3 + IP_CHECK], 0, CsumDiff4(w.oldAddr, w.newAddr)));
    }
  }

  lemma RewriteNothing(b: Buf, w: Rewriting)
    requires w.oldAddr == w.newAddr && w.oldPort == w.newPort && w.innerDiff == 0
    ensures Rewrite(b, w) == Rewritten(b, Ok)
  {
  }

  /**
   An ICMP error that embeds TCP or UDP and passes the NAT, in either direction, keeps the outer
   ICMP checksum valid: with a full embedded header, a truncated one or an absent UDP checksum.
   */
  lemma ErrorKeepsIcmpChecksum(b: Buf, m: Table, l3: nat, off: nat, egress: bool)
    requires l3 + IP_WORDS <= off && InnerTcpUdp(b, off)
    requires TranslateError(b, m, l3, off, egress).ret == Ok
    requires Verifies(b.words[off..]) && b.words[off] > 0
    ensures Verifies(TranslateError(b, m, l3, off, egress).buf.words[off..])
  {
    hide HandleError, Rewrite;
    InnerMoves(b, m, off, egress);
    var h := HandleError(b, m, off, egress);
    var w := OuterRewriting(b, h.entry.value, h.diff, l3, off, egress);
    OuterCancels(h.buf, w, off);
    var b' := Rewrite(h.buf, w).buf;
    var inner, outer := Sum(h.buf.words[off..]) - Sum(b.words[off..]), Sum(b'.words[off..]) - Sum(h.buf.words[off..]);
    ModSum(inner - h.diff, outer + h.diff);
    assert h.buf.words[off] == h.buf.words[..off + ICMP_WORDS][off];
    KeepsVerifying(b.words[off..], b'.words[off..], inner + outer);
  }

  /** An ICMP error that passes the NAT keeps its outer IPv4 header checksum valid. */
  lemma ErrorKeepsIpHeader(b: Buf, m: Table, l3: nat, off: nat, egress: bool)
    requires l3 + IP_WORDS <= off && InnerTcpUdp(b, off)
    requires TranslateError(b, m, l3, off, egress).ret == Ok
    requires Verifies(b.words[l3..off]) && b.words[l3] > 0
    ensures Verifies(TranslateError(b, m, l3, off, egress).buf.words[l3..off])
  {
    hide HandleError, Rewrite, RewriteL3, CsumDiff4;
    InnerMoves(b, m, off, egress);
    var h := HandleError(b, m, off, egress);
    var w := OuterRewriting(b, h.entry.value, h.diff, l3, off, egress);
    assert h.buf.words[..off] == h.buf.words[..off + ICMP_WORDS][..off] == b.words[..off];
    assert h.buf.words[l3..off] == h.buf.words[..off][l3..] == b.words[l3..off];
    if w.oldAddr == w.newAddr && w.innerDiff == 0 {
      RewriteNothing(h.buf, w);
    } else {
      OuterShape(h.buf, w, off);
      assert h.buf.words[l3 + w.addrOff] == h.buf.words[..off][l3 + w.addrOff];
      assert h.buf.words[l3 + w.addrOff + 1] == h.buf.words[..off][l3 + w.addrOff + 1];
      RewriteL3KeepsHeader(h.buf, w, off);
      var b1 := RewriteL3(h.buf, w, CsumDiff4(w.oldAddr, w.newAddr)).buf;
      assert Rewrite(h.buf, w).buf.words[l3..off] == Rewrite(h.buf, w).buf.words[..off][l3..] == b1.words[l3..off];
    }
  }

  // ---- the embedded packet ----

  lemma TruncatedKeepsHeader(b: Buf, f: Frame, ch: Change)
    requires ch.Valid() && f.proto == TCP && f.l3 + IP_WORDS <= f.l4
    requires Accessible(b, f.l4, 2) && !Accessible(b, f.l4 + TCP_CHECK, 1)
    requires L3Valid(b, f.l3, f.l4) && b.words[f.l3] > 0
    ensures var b' := Rewrite(b, RewritingOf(b, f, ch)).buf;
            f.l4 <= |b'.words| && L3Valid(b', f.l3, f.l4)
  {
    hide Rewrite, RewriteL3, Replace, CsumDiff4, Verifies;
    var w := RewritingOf(b, f, ch);
    if w.oldAddr == w.newAddr && w.oldPort == w.newPort {
      RewriteNothing(b, w);
    } else {
      var sum := CsumDiff4(w.oldAddr, w.newAddr);
      var ip := Replace(b.words[f.l3 + IP_CHECK], 0, sum);
      TruncatedInnerShape(b, w, f, ch, ip);
      RewriteL3Shape(b, w, f, ch, sum, ip);
      RewriteL3KeepsHeader(b, w, f.l4);
      assert Rewrite(b, w).buf.words[f.l3..f.l4] == StoredL3(b.words, f, ch, ip)[f.l3..f.l4];
    }
  }

  lemma HandledKeepsInner(b: Buf, m: Table, off: nat, egress: bool, len: u16)
    requires InnerTcpUdp(b, off) && HandleError(b, m, off, egress).ret == Ok
    ensures var f, b' := InnerFrame(b, off), HandleError(b, m, off, egress).buf;
            && b'.len == b.len && Accessible(b, f.l4, 2)
            && (L3Valid(b, f.l3, f.l4) && b.words[f.l3] > 0 ==> L3Valid(b', f.l3, f.l4))
            && (f.In(b) && L4Valid(b, f, len) ==> L4Valid(b', f, len))
  {
    hide HandleError, Rewrite, CalcDiff, L3Valid, L4Valid, Translated;
    HandledShape(b, m, off, egress);
    var f := InnerFrame(b, off);
    var ch := InnerChange(m[InnerKey(b, off, egress)], egress);
    if f.In(b) {
      RewriteTranslates(b, RewritingOf(b, f, ch), f, ch);
      var b' := Rewrite(b, RewritingOf(b, f, ch)).buf;
      if L3Valid(b, f.l3, f.l4) && b.words[f.l3] > 0 {
        TranslatedKeepsL3(b, b', f, ch);
      }
      if L4Valid(b, f, len) {
        TranslatedKeepsL4(b, b', f, ch, len);
      }
    } else if L3Valid(b, f.l3, f.l4) && b.words[f.l3] > 0 {
      TruncatedKeepsHeader(b, f, ch);
    }
  }

  /** The outer rewriting does not reach the embedded packet. */
  lemma OuterSpares(b: Buf, w: Rewriting, off: nat)
    requires Accessible(b, off, ICMP_WORDS) && IsOuter(w, off)
    ensures Rewrite(b, w).buf.len == b.len
    ensures Rewrite(b, w).buf.words[off + ICMP_WORDS..] == b.words[off + ICMP_WORDS..]
  {
    hide Rewrite, RewriteL3, CsumDiff4;
    if w.oldAddr == w.newAddr && w.innerDiff == 0 {
      RewriteNothing(b, w);
    } else {
      OuterShape(b, w, off);
      var b2 := RewriteL3(b, w, CsumDiff4(w.oldAddr, w.newAddr)).buf;
      assert b2.words[off + ICMP_WORDS..] == b2.words[off..][ICMP_WORDS..] == b.words[off..][ICMP_WORDS..];
      assert Rewrite(b, w).buf.words[off + ICMP_WORDS..] == b2.words[off + ICMP_WORDS..];
    }
  }

  /** Checksums of a packet depend on nothing in front of it. */
  lemma SameFrom(b: Buf, b': Buf, f: Frame, len: u16)
    requires b'.len == b.len && f.l3 + IP_WORDS <= f.l4 && Accessible(b, f.l4, 2) && b'.words[f.l3..] == b.words[f.l3..]
    ensures L3Valid(b', f.l3, f.l4) <==> L3Valid(b, f.l3, f.l4)
    ensures f.In(b) ==> (L4Valid(b', f, len) <==> L4Valid(b, f, len))
  {
    hide Verifies;
    var w, w' := b.words[f.l3..], b'.words[f.l3..];
    assert b'.words[f.l3..f.l4] == w'[..f.l4 - f.l3] == w[..f.l4 - f.l3] == b.words[f.l3..f.l4];
    assert b'.words[f.l4..] == w'[f.l4 - f.l3..] == w[f.l4 - f.l3..] == b.words[f.l4..];
    assert b'.words[f.l3 + SADDR..f.l3 + IP_WORDS] == w'[SADDR..IP_WORDS] == w[SADDR..IP_WORDS]
        == b.words[f.l3 + SADDR..f.l3 + IP_WORDS];
    if f.In(b) {
      assert b'.words[f.Ck()] == w'[f.Ck() - f.l3] == w[f.Ck() - f.l3] == b.words[f.Ck()];
    }
  }

  /**
   The packet embedded in an error that passes the NAT keeps its own IPv4 header checksum valid, and its L4
   checksum where it is embedded as far as that checksum.
   */
  lemma ErrorKeepsEmbedded(b: Buf, m: Table, l3: nat, off: nat, egress: bool, len: u16)
    requires l3 + IP_WORDS <= off && InnerTcpUdp(b, off) && TranslateError(b, m, l3, off, egress).ret == Ok
    ensures var f, b' := InnerFrame(b, off), TranslateError(b, m, l3, off, egress).buf;
            && b'.len == b.len && Accessible(b, f.l4, 2)
            && (L3Valid(b, f.l3, f.l4) && b.words[f.l3] > 0 ==> L3Valid(b', f.l3, f.l4))
            && (f.In(b) && L4Valid(b, f, len) ==> L4Valid(b', f, len))
  {
    hide HandleError, Rewrite, L3Valid, L4Valid;
    HandledShape(b, m, off, egress);
    HandledKeepsInner(b, m, off, egress, len);
    var h := HandleError(b, m, off, egress);
    var w := OuterRewriting(b, h.entry.value, h.diff, l3, off, egress);
    OuterSpares(h.buf, w, off);
    SameFrom(h.buf, Rewrite(h.buf, w).buf, InnerFrame(b, off), len);
  }
}
