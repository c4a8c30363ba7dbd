/**
 The packet buffer and the header rewriting of bpf/lib/nat.h.

 Every field the datapath rewrites is 16-bit aligned, so a packet is a sequence of 16-bit words
 in the order a little-endian CPU loads them, together with its length in bytes. The last word
 of a packet of odd length is padded with a zero byte, as a checksum pads it, and is not accessible.
 */
module Packet {
  import opened Net
  import opened Checksum

  datatype RawBuf = Buf(words: seq<u16>, len: nat)

  type Buf = b: RawBuf | |b.words| == (b.len + 1) / 2 witness Buf([], 0)

  /** Loads and stores of `n` words at word offset `off` stay inside the packet. */
  predicate Accessible(b: Buf, off: nat, n: nat) {
    2 * (off + n) <= b.len
  }

  // Word offsets in an IPv4 header.
  const IP_TTL := 4
  const IP_CHECK := 5
  const SADDR := 6
  const DADDR := 8
  const IP_WORDS := 10

  // Word offsets in a TCP, UDP or ICMP header.
  const SPORT := 0
  const DPORT := 1
  const TCP_CHECK := 8
  const UDP_CHECK := 3
  const ICMP_CHECK := 1
  const ICMP_ID := 2

  function Load32(b: Buf, off: nat): (r: u32)
    requires Accessible(b, off, 2)
    ensures r % M == (b.words[off] + b.words[off + 1]) % M
  {
    Word32(b.words[off], b.words[off + 1])
  }

  function Store(b: Buf, off: nat, v: u16): Buf
    requires Accessible(b, off, 1)
  {
    b.(words := b.words[off := v])
  }

  function Store32(b: Buf, off: nat, v: u32): Buf
    requires Accessible(b, off, 2)
  {
    b.(words := b.words[off := v % U16][off + 1 := v / U16])
  }

  /** Header length field of the IPv4 header at `l3`, in words. */
  function HdrWords(b: Buf, l3: nat): nat
    requires Accessible(b, l3, 1)
  {
    2 * (b.words[l3] % 16)
  }

  function Protocol(b: Buf, l3: nat): u8
    requires Accessible(b, l3, IP_WORDS)
  {
    b.words[l3 + IP_TTL] / 256
  }

  /** Where an L4 protocol keeps its checksum; 0 means that it has none to adjust. */
  datatype CsumOffset = CsumOffset(off: nat, mangledZero: bool)

  function L4Csum(nexthdr: u8): CsumOffset {
    if nexthdr == TCP then CsumOffset(TCP_CHECK, false)
    else if nexthdr == UDP then CsumOffset(UDP_CHECK, true)
    else if nexthdr == ICMPV6 then CsumOffset(ICMP_CHECK, false)
    else CsumOffset(0, false)
  }

  /** The arguments of snat_v4_rewrite_headers. */
  datatype Rewriting = Rewriting(
    nexthdr: u8, l3: nat, hasL4: bool, l4: nat,
    oldAddr: u32, newAddr: u32, addrOff: nat,
    oldPort: u16, newPort: u16, portOff: nat,
    innerDiff: u32)

  datatype Rewritten = Rewritten(buf: Buf, ret: Ret)

  function L4Replace(b: Buf, off: nat, from: u32, to: u32, mangledZero: bool): (r: Rewritten)
    ensures r.buf.len == b.len
  {
    if !Accessible(b, off, 1) then Rewritten(b, DropCsumL4)
    else Rewritten(Store(b, off, ReplaceL4(b.words[off], from, to, mangledZero)), Ok)
  }

  /** l4_modify_port: the port is stored before its checksum is fixed. */
  function ModifyPort(b: Buf, l4: nat, portOff: nat, c: CsumOffset, oldPort: u16, newPort: u16): (r: Rewritten)
    ensures r.buf.len == b.len
  {
    if !Accessible(b, l4 + portOff, 1) then Rewritten(b, DropWriteError)
    else L4Replace(Store(b, l4 + portOff, newPort), l4 + c.off, oldPort, newPort, c.mangledZero)
  }

  function RewriteL4(b: Buf, w: Rewriting, sum: u32): (r: Rewritten)
    ensures r.buf.len == b.len
  {
    var c := L4Csum(w.nexthdr);
    var ports :=
      if w.oldPort == w.newPort then Rewritten(b, Ok)
      else if w.nexthdr == TCP || w.nexthdr == UDP then ModifyPort(b, w.l4, w.portOff, c, w.oldPort, w.newPort)
      else if w.nexthdr == ICMP then
        ModifyPort(b, w.l4, w.portOff, CsumOffset(ICMP_CHECK, false), w.oldPort, w.newPort)
      else Rewritten(b, DropUnknownL4);
    if ports.ret != Ok then ports
    else if c.off != 0 then L4Replace(ports.buf, w.l4 + c.off, 0, sum, c.mangledZero)
    else if w.innerDiff != 0 then L4Replace(ports.buf, w.l4 + ICMP_CHECK, 0, w.innerDiff, false)
    else ports
  }

  function RewriteL3(b: Buf, w: Rewriting, sum: u32): (r: Rewritten)
    ensures r.buf.len == b.len
  {
    if !Accessible(b, w.l3 + w.addrOff, 2) then Rewritten(b, DropWriteError)
    else
      var b1 := Store32(b, w.l3 + w.addrOff, w.newAddr);
      if !Accessible(b, w.l3 + IP_CHECK, 1) then Rewritten(b1, DropCsumL3)
      else Rewritten(Store(b1, w.l3 + IP_CHECK, Replace(b1.words[w.l3 + IP_CHECK], 0, sum)), Ok)
  }

  function Rewrite(b: Buf, w: Rewriting): (r: Rewritten)
    ensures r.buf.len == b.len
  {
    if w.oldAddr == w.newAddr && w.oldPort == w.newPort && w.innerDiff == 0 then Rewritten(b, Ok)
    else
      var sum := CsumDiff4(w.oldAddr, w.newAddr);
      var l3 := RewriteL3(b, w, sum);
      if l3.ret == Ok && w.hasL4 then RewriteL4(l3.buf, w, sum) else l3
  }

  // ---- the imperative form ----

  class Ctx {
    var buf: Buf

    constructor (b: Buf)
      ensures buf == b
    {
      buf := b;
    }

    method StoreWord(off: nat, v: u16) returns (ok: bool)
      modifies this
      ensures ok <==> Accessible(old(buf), off, 1)
      ensures buf == if ok then Store(old(buf), off, v) else old(buf)
    {
      ok := Accessible(buf, off, 1);
      if ok {
        buf := buf.(words := buf.words[off := v]);
      }
    }

    method StoreAddr(off: nat, v: u32) returns (ok: bool)
      modifies this
      ensures ok <==> Accessible(old(buf), off, 2)
      ensures buf == if ok then Store32(old(buf), off, v) else old(buf)
    {
      ok := Accessible(buf, off, 2);
      if ok {
        buf := buf.(words := buf.words[off := v % U16]);
        buf := buf.(words := buf.words[off + 1 := v / U16]);
      }
    }

    method CsumReplaceL4(off: nat, from: u32, to: u32, mangledZero: bool) returns (ok: bool)
      modifies this
      ensures Rewritten(buf, if ok then Ok else DropCsumL4) == L4Replace(old(buf), off, from, to, mangledZero)
    {
      if !Accessible(buf, off, 1) {
        return false;
      }
      var sum := buf.words[off];
      if mangledZero && sum == 0 {
        assert buf.words[off := 0] == buf.words;
        return true;
      }
      sum := Replace(sum, from, to);
      if mangledZero && sum == 0 {
        sum := 0xffff;
      }
      ok := StoreWord(off, sum);
    }

    method ModifyL4Port(l4: nat, portOff: nat, c: CsumOffset, oldPort: u16, newPort: u16) returns (ret: Ret)
      modifies this
      ensures Rewritten(buf, ret) == ModifyPort(old(buf), l4, portOff, c, oldPort, newPort)
    {
      var ok := StoreWord(l4 + portOff, newPort);
      if !ok {
        return DropWriteError;
      }
      ok := CsumReplaceL4(l4 + c.off, oldPort, newPort, c.mangledZero);
      return if ok then Ok else DropCsumL4;
    }

    method RewriteHeaders(w: Rewriting) returns (ret: Ret)
      modifies this
      ensures Rewritten(buf, ret) == Rewrite(old(buf), w)
    {
      if w.oldAddr == w.newAddr && w.oldPort == w.newPort && w.innerDiff == 0 {
        return Ok;
      }
      var sum := CsumDiff4(w.oldAddr, w.newAddr);
      ret := RewriteL3Header(w, sum);
      if ret == Ok && w.hasL4 {
        ret := RewriteL4Header(w, sum);
      }
    }

    method RewriteL3Header(w: Rewriting, sum: u32) returns (ret: Ret)
      modifies this
      ensures Rewritten(buf, ret) == RewriteL3(old(buf), w, sum)
    {
      var ok := StoreAddr(w.l3 + w.addrOff, w.newAddr);
      if !ok {
        return DropWriteError;
      }
      if !Accessible(buf, w.l3 + IP_CHECK, 1) {
        return DropCsumL3;
      }
      ok := StoreWord(w.l3 + IP_CHECK, Replace(buf.words[w.l3 + IP_CHECK], 0, sum));
      return Ok;
    }

    method RewriteL4Header(w: Rewriting, sum: u32) returns (ret: Ret)
      modifies this
      ensures Rewritten(buf, ret) == RewriteL4(old(buf), w, sum)
    {
      var c := L4Csum(w.nexthdr);
      if w.oldPort != w.newPort {
        if w.nexthdr == ICMP {
          c := CsumOffset(ICMP_CHECK, false);
        } else if w.nexthdr != TCP && w.nexthdr != UDP {
          return DropUnknownL4;
        }
        ret := ModifyL4Port(w.l4, w.portOff, c, w.oldPort, w.newPort);
        if ret != Ok {
          return;
        }
        if w.nexthdr == ICMP {
          c := CsumOffset(0, false);
        }
      }
      var ok := true;
      if c.off != 0 {
        ok := CsumReplaceL4(w.l4 + c.off, 0, sum, c.mangledZero);
      } else if w.innerDiff != 0 {
        ok := CsumReplaceL4(w.l4 + ICMP_CHECK, 0, w.innerDiff, false);
      }
      return if ok then Ok else DropCsumL4;
    }
  }
}
