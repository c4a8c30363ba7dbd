/**
 The packet side of service load balancing in bpf/lib/lb.h: destination translation of a request,
 source translation of its reply, and the hop count of bpf/lib/ipv4.h.
 */
module LbXlate {
  import opened Net
  import opened Checksum
  import opened Packet
  import opened Translation

  /** Stores an address and fixes the IPv4 header checksum by the difference `sum`. */
  function Readdress(b: Buf, l3: nat, addrOff: nat, addr: u32, sum: u32): (r: Rewritten)
    ensures r.buf.len == b.len
  {
    RewriteL3(b, Rewriting(0, l3, false, 0, 0, addr, addrOff, 0, 0, 0, 0), sum)
  }

  /** lb_l4_xlate: a backend without a port keeps the packet's. */
  function XlatePort(b: Buf, l4: nat, c: CsumOffset, dport: u16, backendPort: u16): (r: Rewritten)
    ensures r.buf.len == b.len
  {
    if backendPort != 0 && dport != backendPort then ModifyPort(b, l4, DPORT, c, dport, backendPort)
    else Rewritten(b, Ok)
  }

  /** lb4_xlate: the L4 checksum is fixed for the address first, then for the port. */
  function Dnat(b: Buf, nexthdr: u8, l3: nat, l4: nat,
                oldDaddr: u32, oldDport: u16, addr: u32, port: u16, hasL4: bool): (r: Rewritten)
    ensures r.buf.len == b.len
  {
    var c := if hasL4 then L4Csum(nexthdr) else CsumOffset(0, false);
    var sum := CsumDiff4(oldDaddr, addr);
    var moved := Readdress(b, l3, DADDR, addr, sum);
    if moved.ret != Ok then moved
    else
      var fixed := if c.off != 0 then L4Replace(moved.buf, l4 + c.off, 0, sum, c.mangledZero) else moved;
      if fixed.ret != Ok || !hasL4 then fixed else XlatePort(fixed.buf, l4, c, oldDport, port)
  }

  /** reverse_map_l4_port; port 0 in the reverse NAT entry keeps the packet's port. */
  function MapBackPort(b: Buf, nexthdr: u8, l4: nat, c: CsumOffset, oldPort: u16, port: u16): (r: Rewritten)
    ensures r.buf.len == b.len
  {
    if port == 0 then Rewritten(b, Ok)
    else if nexthdr == TCP || nexthdr == UDP then
      if port != oldPort then ModifyPort(b, l4, SPORT, c, oldPort, port) else Rewritten(b, Ok)
    else if nexthdr == ICMP || nexthdr == ICMPV6 then Rewritten(b, Ok)
    else Rewritten(b, DropUnknownL4)
  }

  /** __lb4_rev_nat: the L4 checksum is fixed for the port first, then for the address. */
  function RevNat(b: Buf, nexthdr: u8, l3: nat, l4: nat,
                  oldSaddr: u32, oldSport: u16, addr: u32, port: u16, hasL4: bool): (r: Rewritten)
    ensures r.buf.len == b.len
  {
    var c := L4Csum(nexthdr);
    var sum := CsumDiff4(oldSaddr, addr);
    var moved := Readdress(b, l3, SADDR, addr, sum);
    if moved.ret != Ok || !hasL4 then moved
    else
      var mapped := MapBackPort(moved.buf, nexthdr, l4, c, oldSport, port);
      if mapped.ret == Ok && c.off != 0 then L4Replace(mapped.buf, l4 + c.off, 0, sum, c.mangledZero) else mapped
  }

  /** ipv4_dec_ttl; the hop count is the low byte of its word. */
  function DecTtl(b: Buf, l3: nat): (r: Rewritten)
    requires Accessible(b, l3, IP_WORDS)
    ensures r.buf.len == b.len
  {
    var ttl := b.words[l3 + IP_TTL] % 256;
    if ttl <= 1 then Rewritten(b, DropTtlExceeded)
    else
      var b1 := Store(b, l3 + IP_TTL, b.words[l3 + IP_TTL] - 1);
      Rewritten(Store(b1, l3 + IP_CHECK, Replace(b1.words[l3 + IP_CHECK], ttl, ttl - 1)), Ok)
  }

  // ---- the imperative form ----

  method MoveAddress(ctx: Ctx, l3: nat, addrOff: nat, addr: u32, sum: u32) returns (ret: Ret)
    modifies ctx
    ensures Rewritten(ctx.buf, ret) == Readdress(old(ctx.buf), l3, addrOff, addr, sum)
  {
    var ok := ctx.StoreAddr(l3 + addrOff, addr);
    if !ok {
      return DropWriteError;
    }
    if !Accessible(ctx.buf, l3 + IP_CHECK, 1) {
      return DropCsumL3;
    }
    ok := ctx.StoreWord(l3 + IP_CHECK, Replace(ctx.buf.words[l3 + IP_CHECK], 0, sum));
    return Ok;
  }

  method DnatRequest(ctx: Ctx, nexthdr: u8, l3: nat, l4: nat,
                     oldDaddr: u32, oldDport: u16, addr: u32, port: u16, hasL4: bool)
    returns (ret: Ret)
    modifies ctx
    ensures Rewritten(ctx.buf, ret) == Dnat(old(ctx.buf), nexthdr, l3, l4, oldDaddr, oldDport, addr, port, hasL4)
  {
    hide Readdress, CsumDiff4, L4Replace, ModifyPort;
    var c := CsumOffset(0, false);
    if hasL4 {
      c := L4Csum(nexthdr);
    }
    var sum := CsumDiff4(oldDaddr, addr);
    ret := MoveAddress(ctx, l3, DADDR, addr, sum);
    if ret != Ok {
      return;
    }
    if c.off != 0 {
      var ok := ctx.CsumReplaceL4(l4 + c.off, 0, sum, c.mangledZero);
      if !ok {
        return DropCsumL4;
      }
    }
    if hasL4 && port != 0 && oldDport != port {
      ret := ctx.ModifyL4Port(l4, DPORT, c, oldDport, port);
    }
  }

  method RevNatReply(ctx: Ctx, nexthdr: u8, l3: nat, l4: nat,
                     oldSaddr: u32, oldSport: u16, addr: u32, port: u16, hasL4: bool)
    returns (ret: Ret)
    modifies ctx
    ensures Rewritten(ctx.buf, ret) == RevNat(old(ctx.buf), nexthdr, l3, l4, oldSaddr, oldSport, addr, port, hasL4)
  {
    hide Readdress, CsumDiff4, L4Replace, ModifyPort;
    var sum := CsumDiff4(oldSaddr, addr);
    ret := MoveAddress(ctx, l3, SADDR, addr, sum);
    if ret != Ok || !hasL4 {
      return;
    }
    var c := L4Csum(nexthdr);
    if port != 0 {
      if nexthdr == TCP || nexthdr == UDP {
        if port != oldSport {
          ret := ctx.ModifyL4Port(l4, SPORT, c, oldSport, port);
          if ret != Ok {
            return;
          }
        }
      } else if nexthdr != ICMP && nexthdr != ICMPV6 {
        return DropUnknownL4;
      }
    }
    if c.off != 0 {
      var ok := ctx.CsumReplaceL4(l4 + c.off, 0, sum, c.mangledZero);
      return if ok then Ok else DropCsumL4;
    }
  }

  method HopDown(ctx: Ctx, l3: nat) returns (ret: Ret)
    requires Accessible(ctx.buf, l3, IP_WORDS)
    modifies ctx
    ensures Rewritten(ctx.buf, ret) == DecTtl(old(ctx.buf), l3)
  {
    var ttl := ctx.buf.words[l3 + IP_TTL] % 256;
    if ttl <= 1 {
      return DropTtlExceeded;
    }
    var ok := ctx.StoreWord(l3 + IP_TTL, ctx.buf.words[l3 + IP_TTL] - 1);
    ok := ctx.StoreWord(l3 + IP_CHECK, Replace(ctx.buf.words[l3 + IP_CHECK], ttl, ttl - 1));
    return Ok;
  }

  // ---- both are translations ----

  /** The L4 checksum after the address fix and then the port fix. */
  function FixedAddrFirst(k: u16, p: u16, p': u16, sum: u32, mangledZero: bool): u16 {
    var k1 := ReplaceL4(k, 0, sum, mangledZero);
    if p == p' then k1 else ReplaceL4(k1, p, p', mangledZero)
  }

  lemma FixedAddrFirstMoves(k: u16, p: u16, p': u16, sum: u32, mangledZero: bool, d: int)
    requires sum % M == d % M
    ensures var r := FixedAddrFirst(k, p, p', sum, mangledZero);
            && (if mangledZero && k == 0 then r == 0
                else ((r as int) - (k as int) + ((p' as int) - (p as int)) + d) % M == 0)
            && (mangledZero && k != 0 ==> r != 0)
  {
    hide ReplaceL4;
    var k1 := ReplaceL4(k, 0, sum, mangledZero);
    var r := FixedAddrFirst(k, p, p', sum, mangledZero);
    if !(mangledZero && k == 0) {
      ModSum((k1 as int) - (k as int) + sum, (r as int) - (k1 as int) + ((p' as int) - (p as int)));
      ModShift(sum, d, (r as int) - (k as int) + ((p' as int) - (p as int)));
    }
  }

  lemma ReaddressShape(b: Buf, f: Frame, ch: Change, sum: u32, ip: u16)
    requires f.In(b) && ch.Valid() && ip == Replace(b.words[f.l3 + IP_CHECK], 0, sum)
    ensures Readdress(b, f.l3, ch.addrOff, ch.Addr(), sum) == Rewritten(b.(words := StoredL3(b.words, f, ch, ip)), Ok)
  {
    hide Replace;
    RewriteL3Shape(b, Rewriting(0, f.l3, false, 0, 0, ch.Addr(), ch.addrOff, 0, 0, 0, 0), f, ch, sum, ip);
  }

  /** The address fix and then the port fix, as two stores. */
  lemma AddrFirstShape(b: Buf, f: Frame, dport: u16, port: u16, sum: u32, k: u16)
    requires f.In(b) && b.words[f.l4 + DPORT] == dport && port != 0
    requires k == FixedAddrFirst(b.words[f.Ck()], dport, port, sum, L4Csum(f.proto).mangledZero)
    ensures var c := L4Csum(f.proto);
            var fixed := L4Replace(b, f.Ck(), 0, sum, c.mangledZero);
            && fixed.ret == Ok
            && XlatePort(fixed.buf, f.l4, c, dport, port)
               == Rewritten(b.(words := b.words[f.l4 + DPORT := port][f.Ck() := k]), Ok)
  {
  }

  lemma DnatTranslates(b: Buf, f: Frame, ch: Change)
    requires f.In(b) && ch.Valid() && ch.addrOff == DADDR && ch.portOff == DPORT && ch.port != 0
    ensures var out := Dnat(b, f.proto, f.l3, f.l4, Load32(b, f.l3 + DADDR), b.words[f.l4 + DPORT], ch.Addr(), ch.port, true);
            out.ret == Ok && Translated(b, out.buf, f, ch)
  {
    hide Replace, ReplaceL4, CsumDiff4, Readdress, L4Replace, XlatePort, Translated, FixedAddrFirst;
    var addr, dport := Load32(b, f.l3 + DADDR), b.words[f.l4 + DPORT];
    var sum := CsumDiff4(addr, ch.Addr());
    var ip := Replace(b.words[f.l3 + IP_CHECK], 0, sum);
    var k := FixedAddrFirst(b.words[f.Ck()], dport, ch.port, sum, L4Csum(f.proto).mangledZero);
    ReaddressShape(b, f, ch, sum, ip);
    var b1: Buf := b.(words := StoredL3(b.words, f, ch, ip));
    assert b1.words[f.Ck()] == b.words[f.Ck()] && b1.words[f.l4 + DPORT] == dport;
    AddrFirstShape(b1, f, dport, ch.port, sum, k);
    AddrDeltaIs(b, f, ch);
    FixedAddrFirstMoves(b.words[f.Ck()], dport, ch.port, sum, L4Csum(f.proto).mangledZero, AddrDelta(b.words, f, ch));
    MovedTranslates(b, f, ch, ip, k, sum);
  }

  lemma RevNatShape(b: Buf, f: Frame, sport: u16, port: u16, sum: u32, k: u16)
    requires f.In(b) && b.words[f.l4 + SPORT] == sport && port != 0
    requires k == FixedL4(b.words[f.Ck()], sport, port, sum, L4Csum(f.proto).mangledZero)
    ensures var c := L4Csum(f.proto);
            var mapped := MapBackPort(b, f.proto, f.l4, c, sport, port);
            && mapped.ret == Ok
            && L4Replace(mapped.buf, f.Ck(), 0, sum, c.mangledZero)
               == Rewritten(b.(words := b.words[f.l4 + SPORT := port][f.Ck() := k]), Ok)
  {
    hide ReplaceL4;
    if sport == port {
      assert b.words[f.l4 + SPORT := port] == b.words;
    } else {
      var k1 := ReplaceL4(b.words[f.Ck()], sport, port, L4Csum(f.proto).mangledZero);
      var b1 := Store(b, f.l4 + SPORT, port);
      assert b1.words[f.Ck()] == b.words[f.Ck()];
      assert Store(b1, f.Ck(), k1).words[f.Ck() := k] == b1.words[f.Ck() := k];
    }
  }

  lemma RevNatTranslates(b: Buf, f: Frame, ch: Change)
    requires f.In(b) && ch.Valid() && ch.addrOff == SADDR && ch.portOff == SPORT && ch.port != 0
    ensures var out := RevNat(b, f.proto, f.l3, f.l4, Load32(b, f.l3 + SADDR), b.words[f.l4 + SPORT], ch.Addr(), ch.port, true);
            out.ret == Ok && Translated(b, out.buf, f, ch)
  {
    hide Replace, ReplaceL4, CsumDiff4, Readdress, L4Replace, MapBackPort, Translated, FixedL4;
    var addr, sport := Load32(b, f.l3 + SADDR), b.words[f.l4 + SPORT];
    var sum := CsumDiff4(addr, ch.Addr());
    var ip := Replace(b.words[f.l3 + IP_CHECK], 0, sum);
    var k := FixedL4(b.words[f.Ck()], sport, ch.port, sum, L4Csum(f.proto).mangledZero);
    ReaddressShape(b, f, ch, sum, ip);
    var b1: Buf := b.(words := StoredL3(b.words, f, ch, ip));
    assert b1.words[f.Ck()] == b.words[f.Ck()] && b1.words[f.l4 + SPORT] == sport;
    RevNatShape(b1, f, sport, ch.port, sum, k);
    StoredTranslates(b, f, ch, ip, k, sum);
  }

  lemma RevNatKeepsDst(b: Buf, f: Frame, oldSaddr: u32, oldSport: u16, addr: u32, port: u16)
    requires f.In(b)
    ensures var out := RevNat(b, f.proto, f.l3, f.l4, oldSaddr, oldSport, addr, port, true);
            && f.In(out.buf)
            && Load32(out.buf, f.l3 + DADDR) == Load32(b, f.l3 + DADDR) && out.buf.words[f.l4 + DPORT] == b.words[f.l4 + DPORT]
  {
    hide Replace, ReplaceL4, CsumDiff4;
  }

  // ---- the hop count ----

  /** One hop less keeps both checksums valid and touches only the hop count and the header checksum. */
  lemma DecTtlKeepsChecksums(b: Buf, f: Frame, len: u16)
    requires f.In(b) && L3Valid(b, f.l3, f.l4) && b.words[f.l3] > 0 && L4Valid(b, f, len)
    requires b.words[f.l3 + IP_TTL] % 256 > 1
    ensures var out := DecTtl(b, f.l3);
            && out.ret == Ok && f.In(out.buf)
            && L3Valid(out.buf, f.l3, f.l4) && L4Valid(out.buf, f, len)
            && out.buf.words[f.l3 + IP_TTL] == b.words[f.l3 + IP_TTL] - 1
            && (forall i | 0 <= i < |b.words| && i != f.l3 + IP_TTL && i != f.l3 + IP_CHECK :: out.buf.words[i] == b.words[i])
  {
    hide Replace, Verifies, Sum;
    var w, t := b.words, b.words[f.l3 + IP_TTL];
    var ttl := t % 256;
    var ip := Replace(w[f.l3 + IP_CHECK], ttl, ttl - 1);
    var w': seq<u16> := w[f.l3 + IP_TTL := t - 1][f.l3 + IP_CHECK := ip];
    assert DecTtl(b, f.l3).buf.words == w';
    var hdr: seq<u16> := w[f.l3..f.l4];
    assert w'[f.l3..f.l4] == hdr[IP_TTL := t - 1][IP_CHECK := ip];
    TwoStores(hdr, IP_TTL, t - 1, IP_CHECK, ip);
    KeepsVerifying(hdr, w'[f.l3..f.l4], -1 + (ip as int) - (w[f.l3 + IP_CHECK] as int));
    SameL4(b, DecTtl(b, f.l3).buf, f, len);
  }

  /** The L4 checksum depends on the addresses and on what follows the header only. */
  lemma SameL4(b: Buf, b': Buf, f: Frame, len: u16)
    requires f.In(b) && b'.len == b.len
    requires b'.words[f.l3 + SADDR..f.l3 + IP_WORDS] == b.words[f.l3 + SADDR..f.l3 + IP_WORDS]
    requires b'.words[f.l4..] == b.words[f.l4..]
    ensures L4Valid(b', f, len) <==> L4Valid(b, f, len)
  {
  }
}
