/**
 Address and port translation of a packet, and why it keeps both checksums valid for the
 receiver. Header rewriting of bpf/lib/nat.h and the service translation of bpf/lib/lb.h are
 instances.
 */
module Translation {
  import opened Net
  import opened Checksum
  import opened Packet

  ghost predicate L3Valid(b: Buf, l3: nat, l4: nat)
    requires l3 <= l4 <= |b.words|
  {
    Verifies(b.words[l3..l4])
  }

  /** The pseudo-header of section 3.1 of RFC 793: addresses, protocol and length. */
  ghost function Pseudo(b: Buf, l3: nat, proto: u8, len: u16): seq<u16>
    requires l3 + IP_WORDS <= |b.words|
  {
    b.words[l3 + SADDR..l3 + IP_WORDS] + [256 * proto, len]
  }


  /** A TCP or UDP packet whose headers, up to the L4 checksum, are inside the buffer. */
  datatype Frame = Frame(l3: nat, l4: nat, proto: u8) {
    predicate In(b: Buf) {
      && (proto == TCP || proto == UDP)
      && l3 + IP_WORDS <= l4 && Accessible(b, Ck(), 1)
    }

    function Ck(): nat {
      l4 + L4Csum(proto).off
    }
  }

  ghost predicate L4Valid(b: Buf, f: Frame, len: u16)
    requires f.In(b)
  {
    || (f.proto == UDP && b.words[f.Ck()] == 0)
    || Verifies(Pseudo(b, f.l3, f.proto, len) + b.words[f.l4..])
  }

  /** The address field and the port field that a translation replaces. */
  datatype Change = Change(addrOff: nat, lo: u16, hi: u16, portOff: nat, port: u16) {
    predicate Valid() {
      (addrOff == SADDR || addrOff == DADDR) && portOff <= 1
    }

    function Addr(): u32 {
      Word32(lo, hi)
    }
  }

  /** The change that writes the 32-bit address `addr`. */
  function ChangeTo(addrOff: nat, addr: u32, portOff: nat, port: u16): (ch: Change)
    ensures ch.Addr() == addr
  {
    Change(addrOff, addr % U16, addr / U16, portOff, port)
  }

  predicate Holds(w: seq<u16>, f: Frame) {
    (f.proto == TCP || f.proto == UDP) && f.l3 + IP_WORDS <= f.l4 && f.Ck() < |w|
  }

  function StoredL3(w: seq<u16>, f: Frame, ch: Change, ipCheck: u16): seq<u16>
    requires ch.Valid() && f.l3 + IP_WORDS <= |w|
  {
    w[f.l3 + ch.addrOff := ch.lo][f.l3 + ch.addrOff + 1 := ch.hi][f.l3 + IP_CHECK := ipCheck]
  }

  function Stored(w: seq<u16>, f: Frame, ch: Change, ipCheck: u16, l4Check: u16): seq<u16>
    requires ch.Valid() && Holds(w, f)
  {
    StoredL3(w, f, ch, ipCheck)[f.l4 + ch.portOff := ch.port][f.Ck() := l4Check]
  }

  predicate Touches(f: Frame, ch: Change, i: int) {
    || i == f.l3 + ch.addrOff || i == f.l3 + ch.addrOff + 1 || i == f.l3 + IP_CHECK
    || i == f.l4 + ch.portOff || i == f.Ck()
  }

  /** How much the change moves the sum of the two address words. */
  function AddrDelta(w: seq<u16>, f: Frame, ch: Change): int
    requires ch.Valid() && f.l3 + IP_WORDS <= |w|
  {
    Delta(w, f.l3 + ch.addrOff, ch.lo) + Delta(w, f.l3 + ch.addrOff + 1, ch.hi)
  }

  /**
   `b'` is `b` with one address and one port replaced, an IP checksum that moved against the
   address change and an L4 checksum that moved against both changes.
   */
  ghost predicate Translated(b: Buf, b': Buf, f: Frame, ch: Change)
    requires f.In(b) && ch.Valid()
  {
    var w := b.words;
    && b'.len == b.len
    && b'.words == Stored(w, f, ch, b'.words[f.l3 + IP_CHECK], b'.words[f.Ck()])
    && (Delta(w, f.l3 + IP_CHECK, b'.words[f.l3 + IP_CHECK]) + AddrDelta(w, f, ch)) % M == 0
    && L4Moved(w, w[f.Ck()], b'.words[f.Ck()], f, ch)
  }

  ghost predicate L4Moved(w: seq<u16>, k: u16, k': u16, f: Frame, ch: Change)
    requires ch.Valid() && Holds(w, f)
  {
    if f.proto == UDP && k == 0 then k' == 0
    else
      && (f.proto == UDP ==> k' != 0)
      && ((k' as int) - (k as int) + Delta(w, f.l4 + ch.portOff, ch.port) + AddrDelta(w, f, ch)) % M == 0
  }

  lemma ModSum(x: int, y: int)
    requires x % M == 0 && y % M == 0
    ensures (x + y) % M == 0
  {
  }

  // ---- the three ranges that the checksums cover ----

  lemma L3Slice(w: seq<u16>, f: Frame, ch: Change, ip: u16, k: u16)
    requires ch.Valid() && Holds(w, f)
    ensures Stored(w, f, ch, ip, k)[f.l3..f.l4]
         == w[f.l3..f.l4][ch.addrOff := ch.lo][ch.addrOff + 1 := ch.hi][IP_CHECK := ip]
  {
  }

  lemma AddrSlice(w: seq<u16>, f: Frame, ch: Change, ip: u16, k: u16)
    requires ch.Valid() && Holds(w, f)
    ensures Stored(w, f, ch, ip, k)[f.l3 + SADDR..f.l3 + IP_WORDS]
         == w[f.l3 + SADDR..f.l3 + IP_WORDS][ch.addrOff - SADDR := ch.lo][ch.addrOff - SADDR + 1 := ch.hi]
  {
  }

  lemma L4Slice(w: seq<u16>, f: Frame, ch: Change, ip: u16, k: u16)
    requires ch.Valid() && Holds(w, f)
    ensures Stored(w, f, ch, ip, k)[f.l4..] == w[f.l4..][ch.portOff := ch.port][f.Ck() - f.l4 := k]
  {
  }

  lemma TranslatedKeepsL3(b: Buf, b': Buf, f: Frame, ch: Change)
    requires f.In(b) && ch.Valid() && Translated(b, b', f, ch)
    requires L3Valid(b, f.l3, f.l4) && b.words[f.l3] > 0
    ensures L3Valid(b', f.l3, f.l4)
  {
    hide Verifies, Sum, L4Moved;
    var w, ip := b.words, b'.words[f.l3 + IP_CHECK];
    L3Slice(w, f, ch, ip, b'.words[f.Ck()]);
    ThreeStores(w[f.l3..f.l4], ch.addrOff, ch.lo, ch.addrOff + 1, ch.hi, IP_CHECK, ip);
    KeepsVerifying(w[f.l3..f.l4], b'.words[f.l3..f.l4], Delta(w, f.l3 + IP_CHECK, ip) + AddrDelta(w, f, ch));
  }

  /** A sum that moves by a multiple of 2^16 - 1 still verifies unless it became zero. */
  lemma KeepsVerifying(ws: seq<u16>, ws': seq<u16>, moved: int)
    requires Verifies(ws) && Sum(ws') == Sum(ws) + moved && moved % M == 0
    requires |ws| > 0 && |ws'| > 0 && ws'[0] > 0
    ensures Verifies(ws')
  {
    VerifiesIff(ws);
    ModSum(Sum(ws), moved);
    SumAtLeast(ws', 0);
    VerifiesIff(ws');
  }

  ghost function L4Sum(w: seq<u16>, f: Frame, len: u16): nat
    requires Holds(w, f)
  {
    Sum(w[f.l3 + SADDR..f.l3 + IP_WORDS]) + 256 * f.proto + len + Sum(w[f.l4..])
  }

  lemma L4SumIs(b: Buf, f: Frame, len: u16)
    requires f.In(b)
    ensures Verifies(Pseudo(b, f.l3, f.proto, len) + b.words[f.l4..]) <==> L4Sum(b.words, f, len) % M == 0
  {
    hide Verifies;
    var addrs, rest := b.words[f.l3 + SADDR..f.l3 + IP_WORDS], b.words[f.l4..];
    var tail: seq<u16> := [256 * f.proto, len];
    SumConcat(addrs + tail, rest);
    SumConcat(addrs, tail);
    SumConcat([256 * f.proto], [len]);
    assert tail == [256 * f.proto] + [len];
    VerifiesIff(Pseudo(b, f.l3, f.proto, len) + rest);
  }

  lemma L4SumMoves(w: seq<u16>, f: Frame, ch: Change, ip: u16, k: u16, len: u16)
    requires ch.Valid() && Holds(w, f)
    ensures Holds(Stored(w, f, ch, ip, k), f)
    ensures L4Sum(Stored(w, f, ch, ip, k), f, len)
         == L4Sum(w, f, len) + AddrDelta(w, f, ch) + Delta(w, f.l4 + ch.portOff, ch.port) + Delta(w, f.Ck(), k)
  {
    AddrSlice(w, f, ch, ip, k);
    L4Slice(w, f, ch, ip, k);
    TwoStores(w[f.l3 + SADDR..f.l3 + IP_WORDS], ch.addrOff - SADDR, ch.lo, ch.addrOff - SADDR + 1, ch.hi);
    TwoStores(w[f.l4..], ch.portOff, ch.port, f.Ck() - f.l4, k);
  }

  lemma TranslatedKeepsL4(b: Buf, b': Buf, f: Frame, ch: Change, len: u16)
    requires f.In(b) && ch.Valid() && Translated(b, b', f, ch)
    requires L4Valid(b, f, len)
    ensures L4Valid(b', f, len)
  {
    hide Sum;
    var w, k := b.words, b'.words[f.Ck()];
    if !(f.proto == UDP && w[f.Ck()] == 0) {
      L4SumIs(b, f, len);
      L4SumIs(b', f, len);
      L4SumMoves(w, f, ch, b'.words[f.l3 + IP_CHECK], k, len);
      ModSum(L4Sum(w, f, len), Delta(w, f.Ck(), k) + Delta(w, f.l4 + ch.portOff, ch.port) + AddrDelta(w, f, ch));
    }
  }

  /** A translation keeps both checksums acceptable and changes exactly the two fields. */
  lemma TranslatedKeepsChecksums(b: Buf, b': Buf, f: Frame, ch: Change, len: u16)
    requires f.In(b) && ch.Valid() && Translated(b, b', f, ch)
    requires L3Valid(b, f.l3, f.l4) && b.words[f.l3] > 0 && L4Valid(b, f, len)
    ensures L3Valid(b', f.l3, f.l4) && L4Valid(b', f, len)
    ensures Load32(b', f.l3 + ch.addrOff) == ch.Addr() && b'.words[f.l4 + ch.portOff] == ch.port
    ensures forall i | 0 <= i < |b.words| :: b'.words[i] == b.words[i] || Touches(f, ch, i)
  {
    hide L3Valid, L4Valid, L4Moved;
    TranslatedKeepsL3(b, b', f, ch);
    TranslatedKeepsL4(b, b', f, ch, len);
  }

  // ---- header rewriting is a translation ----

  /** The L4 checksum after the port fix and then the address fix. */
  function FixedL4(k: u16, p: u16, p': u16, sum: u32, mangledZero: bool): u16 {
    ReplaceL4(if p == p' then k else ReplaceL4(k, p, p', mangledZero), 0, sum, mangledZero)
  }

  lemma FixedL4Moves(k: u16, p: u16, p': u16, sum: u32, mangledZero: bool, d: int)
    requires sum % M == d % M
    ensures var r := FixedL4(k, p, p', sum, mangledZero);
            && (if mangledZero && k == 0 then r == 0
                else ((r as int) - (k as int) + ((p' as int) - (p as int)) + d) % M == 0)
            && (mangledZero && k != 0 ==> r != 0)
  {
    var k1 := if p == p' then k else ReplaceL4(k, p, p', mangledZero);
    var r := ReplaceL4(k1, 0, sum, mangledZero);
    if !(mangledZero && k == 0) {
      ModSum((r as int) - (k1 as int) + sum, (k1 as int) - (k as int) + ((p' as int) - (p as int)));
      ModShift(sum, d, (r as int) - (k as int) + ((p' as int) - (p as int)));
    }
  }

  /** A 32-bit difference and the differences of its two words agree. */
  lemma AddrDeltaIs(b: Buf, f: Frame, ch: Change)
    requires Accessible(b, f.l3, IP_WORDS) && ch.Valid()
    ensures (ch.Addr() - Load32(b, f.l3 + ch.addrOff)) % M == AddrDelta(b.words, f, ch) % M
  {
    var x := f.l3 + ch.addrOff;
    ModMultiple(AddrDelta(b.words, f, ch), Delta(b.words, x + 1, ch.hi));
    assert ch.Addr() - Load32(b, x) == AddrDelta(b.words, f, ch) + M * Delta(b.words, x + 1, ch.hi);
  }

  lemma ModMultiple(a: int, k: int)
    ensures (a + M * k) % M == a % M
  {
  }

  /** The IP checksum after the fix for an address difference `d`. */
  lemma FixedIpMoves(k: u16, sum: u32, d: int)
    requires sum % M == d % M
    ensures ((Replace(k, 0, sum) as int) - (k as int) + d) % M == 0
  {
    ModShift(sum, d, (Replace(k, 0, sum) as int) - (k as int));
  }

  /** The L3 part of header rewriting alone keeps the IPv4 header valid, for every protocol. */
  lemma RewriteL3KeepsHeader(b: Buf, w: Rewriting, hdrEnd: nat)
    requires w.l3 + IP_WORDS <= hdrEnd && Accessible(b, w.l3, IP_WORDS) && hdrEnd <= |b.words|
    requires (w.addrOff == SADDR || w.addrOff == DADDR) && w.oldAddr == Load32(b, w.l3 + w.addrOff)
    requires Verifies(b.words[w.l3..hdrEnd]) && b.words[w.l3] > 0
    ensures Verifies(RewriteL3(b, w, CsumDiff4(w.oldAddr, w.newAddr)).buf.words[w.l3..hdrEnd])
  {
    hide RewriteL3, Replace, CsumDiff4, Verifies, Sum;
    var sum := CsumDiff4(w.oldAddr, w.newAddr);
    var ip := Replace(b.words[w.l3 + IP_CHECK], 0, sum);
    var f, ch := Frame(w.l3, hdrEnd, w.nexthdr), ChangeTo(w.addrOff, w.newAddr, 0, 0);
    RewriteL3Shape(b, w, f, ch, sum, ip);
    AddrDeltaIs(b, f, ch);
    FixedIpMoves(b.words[w.l3 + IP_CHECK], sum, AddrDelta(b.words, f, ch));
    var hdr: seq<u16> := b.words[w.l3..hdrEnd];
    var hdr': seq<u16> := StoredL3(b.words, f, ch, ip)[w.l3..hdrEnd];
    assert hdr' == hdr[ch.addrOff := ch.lo][ch.addrOff + 1 := ch.hi][IP_CHECK := ip];
    ThreeStores(hdr, ch.addrOff, ch.lo, ch.addrOff + 1, ch.hi, IP_CHECK, ip);
    KeepsVerifying(hdr, hdr', Delta(b.words, w.l3 + IP_CHECK, ip) + AddrDelta(b.words, f, ch));
  }

  lemma RewriteL4Shape(b: Buf, w: Rewriting, f: Frame, sum: u32, k: u16)
    requires f.In(b) && w.nexthdr == f.proto && w.l4 == f.l4 && w.portOff <= 1
    requires k == FixedL4(b.words[f.Ck()], w.oldPort, w.newPort, sum, L4Csum(f.proto).mangledZero)
    requires w.oldPort == b.words[f.l4 + w.portOff]
    ensures RewriteL4(b, w, sum) == Rewritten(b.(words := b.words[f.l4 + w.portOff := w.newPort][f.Ck() := k]), Ok)
  {
  }

  /** The L3 part of header rewriting, as three stores. */
  lemma RewriteL3Shape(b: Buf, w: Rewriting, f: Frame, ch: Change, sum: u32, ip: u16)
    requires Accessible(b, f.l3, IP_WORDS) && ch.Valid()
    requires w.l3 == f.l3 && w.addrOff == ch.addrOff && w.newAddr == ch.Addr()
    requires ip == Replace(b.words[f.l3 + IP_CHECK], 0, sum)
    ensures RewriteL3(b, w, sum) == Rewritten(b.(words := StoredL3(b.words, f, ch, ip)), Ok)
  {
  }

  /** The five stores that header rewriting amounts to. */
  lemma RewriteShape(b: Buf, w: Rewriting, f: Frame, ch: Change, sum: u32, ip: u16, k: u16)
    requires f.In(b) && ch.Valid()
    requires w == Rewriting(f.proto, f.l3, true, f.l4, w.oldAddr, ch.Addr(), ch.addrOff, w.oldPort, ch.port, ch.portOff, 0)
    requires w.oldPort == b.words[f.l4 + ch.portOff]
    requires !(w.oldAddr == w.newAddr && w.oldPort == w.newPort)
    requires sum == CsumDiff4(w.oldAddr, w.newAddr)
    requires ip == Replace(b.words[f.l3 + IP_CHECK], 0, sum)
    requires k == FixedL4(b.words[f.Ck()], w.oldPort, w.newPort, sum, L4Csum(f.proto).mangledZero)
    ensures Rewrite(b, w) == Rewritten(b.(words := Stored(b.words, f, ch, ip, k)), Ok)
  {
    hide Replace, CsumDiff4, ReplaceL4, FixedL4, RewriteL3, RewriteL4;
    var b2: Buf := b.(words := StoredL3(b.words, f, ch, ip));
    RewriteL3Shape(b, w, f, ch, sum, ip);
    assert b2.words[f.Ck()] == b.words[f.Ck()] && b2.words[f.l4 + ch.portOff] == w.oldPort;
    RewriteL4Shape(b2, w, f, sum, k);
  }

  /** Header rewriting is a translation, whatever the old and new address and port. */
  lemma RewriteTranslates(b: Buf, w: Rewriting, f: Frame, ch: Change)
    requires f.In(b) && ch.Valid()
    requires w == Rewriting(f.proto, f.l3, true, f.l4, Load32(b, f.l3 + ch.addrOff), ch.Addr(), ch.addrOff,
                            b.words[f.l4 + ch.portOff], ch.port, ch.portOff, 0)
    ensures Rewrite(b, w).ret == Ok && Translated(b, Rewrite(b, w).buf, f, ch)
  {
    if w.oldAddr == w.newAddr && w.oldPort == w.newPort {
      TranslatedSame(b, f, ch);
    } else {
      var sum := CsumDiff4(w.oldAddr, w.newAddr);
      var ip := Replace(b.words[f.l3 + IP_CHECK], 0, sum);
      var k := FixedL4(b.words[f.Ck()], w.oldPort, w.newPort, sum, L4Csum(f.proto).mangledZero);
      RewriteShape(b, w, f, ch, sum, ip, k);
      StoredTranslates(b, f, ch, ip, k, sum);
    }
  }

  /** Five stores whose two checksums were fixed by the difference `sum` are a translation. */
  lemma StoredTranslates(b: Buf, f: Frame, ch: Change, ip: u16, k: u16, sum: u32)
    requires f.In(b) && ch.Valid()
    requires sum % M == (ch.Addr() - Load32(b, f.l3 + ch.addrOff)) % M
    requires ip == Replace(b.words[f.l3 + IP_CHECK], 0, sum)
    requires k == FixedL4(b.words[f.Ck()], b.words[f.l4 + ch.portOff], ch.port, sum, L4Csum(f.proto).mangledZero)
    ensures Translated(b, b.(words := Stored(b.words, f, ch, ip, k)), f, ch)
  {
    AddrDeltaIs(b, f, ch);
    FixedL4Moves(b.words[f.Ck()], b.words[f.l4 + ch.portOff], ch.port, sum, L4Csum(f.proto).mangledZero,
                 AddrDelta(b.words, f, ch));
    MovedTranslates(b, f, ch, ip, k, sum);
  }

  lemma MovedTranslates(b: Buf, f: Frame, ch: Change, ip: u16, k: u16, sum: u32)
    requires f.In(b) && ch.Valid()
    requires sum % M == AddrDelta(b.words, f, ch) % M
    requires ip == Replace(b.words[f.l3 + IP_CHECK], 0, sum)
    requires L4Moved(b.words, b.words[f.Ck()], k, f, ch)
    ensures Translated(b, b.(words := Stored(b.words, f, ch, ip, k)), f, ch)
  {
    FixedIpMoves(b.words[f.l3 + IP_CHECK], sum, AddrDelta(b.words, f, ch));
    var w' := Stored(b.words, f, ch, ip, k);
    assert w'[f.l3 + IP_CHECK] == ip && w'[f.Ck()] == k;
  }

  lemma TranslatedSame(b: Buf, f: Frame, ch: Change)
    requires f.In(b) && ch.Valid()
    requires ch.Addr() == Load32(b, f.l3 + ch.addrOff) && ch.port == b.words[f.l4 + ch.portOff]
    ensures Translated(b, b, f, ch)
  {
  }
}
