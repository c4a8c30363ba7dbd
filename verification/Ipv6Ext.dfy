/**
 The IPv6 extension header walker of bpf/lib/ipv6.h and the DSR destination option of
 bpf/lib/nodeport.h that it has to step over. A packet is its bytes from the IPv6 header on.
 */
module Ipv6Ext {
  import opened Net

  const MAX_HEADERS := 4
  const IPV6_BYTES := 40

  const NEXTHDR_HOP: u8 := 0
  const NEXTHDR_ROUTING: u8 := 43
  const NEXTHDR_FRAGMENT: u8 := 44
  const NEXTHDR_AUTH: u8 := 51
  const NEXTHDR_NONE: u8 := 59
  const NEXTHDR_DEST: u8 := 60

  /** What one header is: an error, the L4 protocol, or an extension header with its successor and length. */
  datatype Skip = Bad(ret: Ret) | L4 | Ext(next: u8, len: nat)

  predicate IsExt(nh: u8) {
    nh == NEXTHDR_FRAGMENT || nh == NEXTHDR_AUTH || nh == NEXTHDR_HOP || nh == NEXTHDR_ROUTING || nh == NEXTHDR_DEST
  }

  /** ipv6_skip_exthdr */
  function SkipExthdr(p: seq<u8>, nh: u8, off: nat): (r: Skip)
    ensures r.Ext? ==> r.len >= 8 && IsExt(nh) && off + 2 <= |p|
  {
    if nh == NEXTHDR_NONE then Bad(DropInvalidExthdr)
    else if !IsExt(nh) then L4
    else if off + 2 > |p| then Bad(DropInvalid)
    else if nh == NEXTHDR_FRAGMENT then Ext(p[off], 8)
    else if nh == NEXTHDR_AUTH then Ext(p[off], ((p[off + 1] as int) + 2) * 4)
    else Ext(p[off], ((p[off + 1] as int) + 1) * 8)
  }

  /** One iteration of the walk, which also loads a fragment header if the caller wants it. */
  function NextHeader(p: seq<u8>, nh: u8, off: nat, wantFrag: bool): (r: Skip)
    ensures r.Ext? ==> r == SkipExthdr(p, nh, off)
    ensures r.Ext? && wantFrag && nh == NEXTHDR_FRAGMENT ==> off + 8 <= |p|
  {
    if SkipExthdr(p, nh, off).Ext? && wantFrag && nh == NEXTHDR_FRAGMENT && off + 8 > |p| then Bad(DropInvalid)
    else SkipExthdr(p, nh, off)
  }

  /** `frag` is the last fragment header seen, or empty. */
  datatype Walked = Stopped(ret: Ret) | At(proto: u8, off: nat, frag: seq<u8>)

  /** The walk with `fuel` iterations left. */
  function Walk(p: seq<u8>, nh: u8, off: nat, wantFrag: bool, frag: seq<u8>, fuel: nat): Walked
    decreases fuel
  {
    if fuel == 0 then Stopped(DropInvalidExthdr)
    else
      match NextHeader(p, nh, off, wantFrag)
      case Bad(ret) => Stopped(ret)
      case L4 => At(nh, off, frag)
      case Ext(next, len) =>
        Walk(p, next, off + len, wantFrag,
             if wantFrag && nh == NEXTHDR_FRAGMENT then p[off..off + 8] else frag, fuel - 1)
  }

  /** ipv6_hdrlen_offset */
  method HdrlenOffset(p: seq<u8>, nexthdr: u8, wantFrag: bool) returns (r: Walked)
    ensures r == Walk(p, nexthdr, IPV6_BYTES, wantFrag, [], MAX_HEADERS)
  {
    var len, nh := IPV6_BYTES, nexthdr;
    var frag: seq<u8> := [];
    for i := 0 to MAX_HEADERS
      invariant len >= 0
      invariant Walk(p, nexthdr, IPV6_BYTES, wantFrag, [], MAX_HEADERS)
             == Walk(p, nh, len, wantFrag, frag, MAX_HEADERS - i)
    {
      var skip := SkipExthdr(p, nh, len);
      if skip.Bad? {
        return Stopped(skip.ret);
      }
      if skip.L4? {
        return At(nh, len, frag);
      }
      if wantFrag && nh == NEXTHDR_FRAGMENT {
        if len + 8 > |p| {
          return Stopped(DropInvalid);
        }
        frag := p[len..len + 8];
      }
      len := len + skip.len;
      nh := skip.next;
    }
    return Stopped(DropInvalidExthdr);
  }

  /** From `nh` at `off`, exactly `n` extension headers lead to the L4 protocol `proto` at `l4`. */
  predicate Chain(p: seq<u8>, nh: u8, off: nat, wantFrag: bool, n: nat, proto: u8, l4: nat)
    decreases n
  {
    match NextHeader(p, nh, off, wantFrag)
    case Bad(_) => false
    case L4 => n == 0 && proto == nh && l4 == off
    case Ext(next, len) => n > 0 && Chain(p, next, off + len, wantFrag, n - 1, proto, l4)
  }

  /** The walk finds the L4 protocol at the end of the chain if and only if it has fuel for every header. */
  lemma {:induction false} WalkFollowsChain(p: seq<u8>, nh: u8, off: nat, wantFrag: bool, frag: seq<u8>, fuel: nat,
                                            n: nat, proto: u8, l4: nat)
    requires Chain(p, nh, off, wantFrag, n, proto, l4)
    ensures var w := Walk(p, nh, off, wantFrag, frag, fuel);
            if n < fuel then w.At? && w.proto == proto && w.off == l4 else w == Stopped(DropInvalidExthdr)
    decreases n
  {
    var s := NextHeader(p, nh, off, wantFrag);
    if s.Ext? && fuel > 0 {
      WalkFollowsChain(p, s.next, off + s.len, wantFrag,
                       if wantFrag && nh == NEXTHDR_FRAGMENT then p[off..off + 8] else frag, fuel - 1, n - 1, proto, l4);
    }
  }

  // ---- the DSR destination option ----

  const OPT_BYTES := 24
  const OPT_TYPE: u8 := 0x1b
  const OPT_LEN: u8 := 20
  const EXT_LEN: u8 := 2

  type Addr6 = a: seq<u8> | |a| == 16 witness seq(16, _ => 0)

  /** The 24-byte destination options header; the port is in network byte order. */
  function Option6(next: u8, addr: Addr6, port: u16): (r: seq<u8>)
    ensures |r| == OPT_BYTES
  {
    [next, EXT_LEN, OPT_TYPE, OPT_LEN] + addr + [port / 256, port % 256, 0, 0]
  }

  function PayloadLen(p: seq<u8>): u16
    requires IPV6_BYTES <= |p|
  {
    256 * (p[4] as int) + p[5]
  }

  datatype Sent6 = Sent6(p: seq<u8>, ret: Ret)

  /** The header with the raised payload length and the new first header. */
  function Raised6(p: seq<u8>): (r: seq<u8>)
    requires IPV6_BYTES <= |p|
    ensures |r| == |p|
  {
    var len := (PayloadLen(p) + OPT_BYTES) % U16;
    p[4 := len / 256][5 := len % 256][6 := NEXTHDR_DEST]
  }

  /** dsr_set_ext6 */
  function SetExt(p: seq<u8>, addr: Addr6, port: u16, need: bool, tooBig: bool, noRoom: bool): Sent6
    requires IPV6_BYTES <= |p|
  {
    if !need then Sent6(p, Ok)
    else if tooBig then Sent6(p, DropFragNeeded)
    else if noRoom then Sent6(Raised6(p), DropInvalid)
    else Sent6(Raised6(p)[..IPV6_BYTES] + Option6(p[6], addr, port) + p[IPV6_BYTES..], Ok)
  }

  class Sender6 {
    var data: seq<u8>

    constructor (p: seq<u8>)
      ensures data == p
    {
      data := p;
    }

    method InsertExt(addr: Addr6, port: u16, need: bool, tooBig: bool, noRoom: bool) returns (ret: Ret)
      requires IPV6_BYTES <= |data|
      modifies this
      ensures Sent6(data, ret) == SetExt(old(data), addr, port, need, tooBig, noRoom)
    {
      var payload := (PayloadLen(data) + OPT_BYTES) % U16;
      if !need {
        return Ok;
      }
      if tooBig {
        return DropFragNeeded;
      }
      var opt := [data[6], EXT_LEN];
      data := data[6 := NEXTHDR_DEST];
      data := data[4 := payload / 256][5 := payload % 256];
      opt := opt + [OPT_TYPE, OPT_LEN] + addr + [port / 256, port % 256, 0, 0];
      assert data == Raised6(old(data));
      if noRoom {
        return DropInvalid;
      }
      assert opt == Option6(old(data)[6], addr, port);
      data := data[..IPV6_BYTES] + opt + data[IPV6_BYTES..];
      return Ok;
    }
  }

  datatype Found = Failed(ret: Ret) | NoOption | Option(off: nat)

  predicate IsDsrOption(p: seq<u8>, nh: u8, off: nat, len: nat) {
    nh == NEXTHDR_DEST && len == OPT_BYTES && off + OPT_BYTES <= |p| && p[off + 2] == OPT_TYPE && p[off + 3] == OPT_LEN
  }

  /** find_dsr_v6 with `fuel` iterations left. */
  function Find(p: seq<u8>, nh: u8, off: nat, fuel: nat): Found
    decreases fuel
  {
    if fuel == 0 then Failed(DropInvalidExthdr)
    else
      match SkipExthdr(p, nh, off)
      case Bad(ret) => Failed(ret)
      case L4 => NoOption
      case Ext(next, len) =>
        if nh == NEXTHDR_DEST && len == OPT_BYTES && off + OPT_BYTES > |p| then Failed(DropInvalid)
        else if IsDsrOption(p, nh, off, len) then Option(off)
        else Find(p, next, off + len, fuel - 1)
  }

  method FindDsr(p: seq<u8>, nexthdr: u8) returns (r: Found)
    ensures r == Find(p, nexthdr, IPV6_BYTES, MAX_HEADERS)
  {
    var len, nh := IPV6_BYTES, nexthdr;
    for i := 0 to MAX_HEADERS
      invariant len >= 0
      invariant Find(p, nexthdr, IPV6_BYTES, MAX_HEADERS) == Find(p, nh, len, MAX_HEADERS - i)
    {
      var skip := SkipExthdr(p, nh, len);
      if skip.Bad? {
        return Failed(skip.ret);
      }
      if skip.L4? {
        return NoOption;
      }
      if nh == NEXTHDR_DEST && skip.len == OPT_BYTES {
        if len + OPT_BYTES > |p| {
          return Failed(DropInvalid);
        }
        if p[len + 2] == OPT_TYPE && p[len + 3] == OPT_LEN {
          return Option(len);
        }
      }
      len := len + skip.len;
      nh := skip.next;
    }
    return Failed(DropInvalidExthdr);
  }

  /** The address and port that nodeport_extract_dsr_v6 takes from the option at `off`. */
  function OptionInfo(p: seq<u8>, off: nat): (Addr6, u16)
    requires off + OPT_BYTES <= |p|
  {
    (p[off + 4..off + 20], 256 * (p[off + 20] as int) + p[off + 21])
  }

  /** From `nh` at `off`, `n` extension headers lead to a DSR option at `at`. */
  predicate LeadsToOption(p: seq<u8>, nh: u8, off: nat, n: nat, at: nat)
    decreases n
  {
    var s := SkipExthdr(p, nh, off);
    && s.Ext?
    && if n == 0 then off == at && IsDsrOption(p, nh, off, s.len) else LeadsToOption(p, s.next, off + s.len, n - 1, at)
  }

  /** What the search finds is an option on the packet's own chain of headers. */
  lemma {:induction false} FoundIsOption(p: seq<u8>, nh: u8, off: nat, fuel: nat) returns (n: nat)
    requires Find(p, nh, off, fuel).Option?
    ensures n < fuel && LeadsToOption(p, nh, off, n, Find(p, nh, off, fuel).off)
    decreases fuel
  {
    var s := SkipExthdr(p, nh, off);
    if IsDsrOption(p, nh, off, s.len) {
      n := 0;
    } else {
      n := FoundIsOption(p, s.next, off + s.len, fuel - 1);
      n := n + 1;
    }
  }

  /** An option within reach is never missed: the search finds it, one before it, or an error. */
  lemma {:induction false} OptionNotMissed(p: seq<u8>, nh: u8, off: nat, fuel: nat, n: nat, at: nat)
    requires n < fuel && LeadsToOption(p, nh, off, n, at)
    ensures Find(p, nh, off, fuel) != NoOption
    ensures Find(p, nh, off, fuel).Option? ==> Find(p, nh, off, fuel).off <= at
    decreases fuel
  {
    var s := SkipExthdr(p, nh, off);
    if n > 0 {
      OptionNotMissed(p, s.next, off + s.len, fuel - 1, n - 1, at);
      OptionAhead(p, s.next, off + s.len, n - 1, at);
    }
  }

  lemma {:induction false} OptionAhead(p: seq<u8>, nh: u8, off: nat, n: nat, at: nat)
    requires LeadsToOption(p, nh, off, n, at)
    ensures off <= at
    decreases n
  {
    if n > 0 {
      var s := SkipExthdr(p, nh, off);
      OptionAhead(p, s.next, off + s.len, n - 1, at);
    }
  }

  // ---- what the receiver sees ----

  /** Headers behind the insertion point read the same 24 bytes further on. */
  lemma NextHeaderShifts(p: seq<u8>, p': seq<u8>, nh: u8, off: nat, wantFrag: bool)
    requires IPV6_BYTES <= off && IPV6_BYTES <= |p| && |p'| == |p| + OPT_BYTES
    requires p'[IPV6_BYTES + OPT_BYTES..] == p[IPV6_BYTES..]
    ensures NextHeader(p', nh, off + OPT_BYTES, wantFrag) == NextHeader(p, nh, off, wantFrag)
    ensures off + 8 <= |p| ==> p'[off + OPT_BYTES..off + OPT_BYTES + 8] == p[off..off + 8]
  {
  }

  function Shift(w: Walked): Walked {
    if w.At? then w.(off := w.off + OPT_BYTES) else w
  }

  lemma {:induction false} WalkShifts(p: seq<u8>, p': seq<u8>, nh: u8, off: nat, wantFrag: bool, frag: seq<u8>, fuel: nat)
    requires IPV6_BYTES <= off && IPV6_BYTES <= |p| && |p'| == |p| + OPT_BYTES
    requires p'[IPV6_BYTES + OPT_BYTES..] == p[IPV6_BYTES..]
    ensures Walk(p', nh, off + OPT_BYTES, wantFrag, frag, fuel) == Shift(Walk(p, nh, off, wantFrag, frag, fuel))
    decreases fuel
  {
    hide NextHeader;
    if fuel > 0 {
      NextHeaderShifts(p, p', nh, off, wantFrag);
      var s := NextHeader(p, nh, off, wantFrag);
      if s.Ext? {
        WalkShifts(p, p', s.next, off + s.len, wantFrag,
                   if wantFrag && nh == NEXTHDR_FRAGMENT then p[off..off + 8] else frag, fuel - 1);
      }
    }
  }

  lemma InsertedBytes(p: seq<u8>, addr: Addr6, port: u16)
    requires IPV6_BYTES <= |p|
    ensures var q := SetExt(p, addr, port, true, false, false).p;
            && |q| == |p| + OPT_BYTES && q[6] == NEXTHDR_DEST
            && q[IPV6_BYTES + OPT_BYTES..] == p[IPV6_BYTES..]
            && q[IPV6_BYTES] == p[6] && q[IPV6_BYTES + 1] == EXT_LEN
            && q[IPV6_BYTES + 2] == OPT_TYPE && q[IPV6_BYTES + 3] == OPT_LEN
            && q[IPV6_BYTES + 4..IPV6_BYTES + 20] == addr
            && q[IPV6_BYTES + 20] == port / 256 && q[IPV6_BYTES + 21] == port % 256
  {
  }

  /** The receiver finds the option first and reads what was put in. */
  lemma ExtractsInserted(p: seq<u8>, addr: Addr6, port: u16)
    requires IPV6_BYTES <= |p|
    ensures var q := SetExt(p, addr, port, true, false, false).p;
            && Find(q, q[6], IPV6_BYTES, MAX_HEADERS) == Option(IPV6_BYTES)
            && OptionInfo(q, IPV6_BYTES) == (addr, port)
  {
    InsertedBytes(p, addr, port);
  }

  /** The receiver's walk does to the larger packet what a walk with one header less does to the original. */
  lemma WalkOverOption(p: seq<u8>, addr: Addr6, port: u16, wantFrag: bool)
    requires IPV6_BYTES <= |p|
    ensures var q := SetExt(p, addr, port, true, false, false).p;
            Walk(q, q[6], IPV6_BYTES, wantFrag, [], MAX_HEADERS)
            == Shift(Walk(p, p[6], IPV6_BYTES, wantFrag, [], MAX_HEADERS - 1))
  {
    hide SetExt;
    InsertedBytes(p, addr, port);
    var q := SetExt(p, addr, port, true, false, false).p;
    assert NextHeader(q, NEXTHDR_DEST, IPV6_BYTES, wantFrag) == Ext(p[6], OPT_BYTES);
    WalkShifts(p, q, p[6], IPV6_BYTES, wantFrag, [], MAX_HEADERS - 1);
  }

  /**
   Exactly when the option is harmless: a packet with up to three extension headers is walked to its
   L4 header, but once the option is in, only one with up to two; then the same protocol is found 24
   bytes further on.
   */
  lemma OptionHarmlessIffTwoHeaders(p: seq<u8>, addr: Addr6, port: u16, wantFrag: bool, n: nat, proto: u8, l4: nat)
    requires IPV6_BYTES <= |p| && Chain(p, p[6], IPV6_BYTES, wantFrag, n, proto, l4)
    ensures var q := SetExt(p, addr, port, true, false, false).p;
            var w, w' := Walk(p, p[6], IPV6_BYTES, wantFrag, [], MAX_HEADERS),
                         Walk(q, q[6], IPV6_BYTES, wantFrag, [], MAX_HEADERS);
            && (w.At? <==> n <= 3)
            && (n <= 2 ==> w' == Shift(w) && w.proto == proto && w.off == l4)
            && (n >= 3 ==> w' == Stopped(DropInvalidExthdr))
  {
    hide SetExt;
    WalkFollowsChain(p, p[6], IPV6_BYTES, wantFrag, [], MAX_HEADERS, n, proto, l4);
    WalkFollowsChain(p, p[6], IPV6_BYTES, wantFrag, [], MAX_HEADERS - 1, n, proto, l4);
    WalkOverOption(p, addr, port, wantFrag);
    if n <= 2 {
      FuelEnough(p, p[6], IPV6_BYTES, wantFrag, [], MAX_HEADERS - 1);
    }
  }

  /** One more iteration does not change a walk that arrived. */
  lemma {:induction false} FuelEnough(p: seq<u8>, nh: u8, off: nat, wantFrag: bool, frag: seq<u8>, fuel: nat)
    requires Walk(p, nh, off, wantFrag, frag, fuel).At?
    ensures Walk(p, nh, off, wantFrag, frag, fuel + 1) == Walk(p, nh, off, wantFrag, frag, fuel)
    decreases fuel
  {
    var s := NextHeader(p, nh, off, wantFrag);
    if s.Ext? {
      FuelEnough(p, s.next, off + s.len, wantFrag,
                 if wantFrag && nh == NEXTHDR_FRAGMENT then p[off..off + 8] else frag, fuel - 1);
    }
  }

  /** A TCP packet behind a hop-by-hop, a routing and a destination options header of 8 bytes each. */
  const THREE_HEADERS: seq<u8> := seq(84, i => if i == 40 then NEXTHDR_ROUTING else if i == 48 then NEXTHDR_DEST
                                               else if i == 56 then TCP else 0)

  /** The packet is walked to its TCP header before the option is put in, and rejected after it. */
  lemma ThirdHeaderBreaks(addr: Addr6, port: u16, wantFrag: bool)
    ensures var p := THREE_HEADERS;
            var q := SetExt(p, addr, port, true, false, false).p;
            && Walk(p, p[6], IPV6_BYTES, wantFrag, [], MAX_HEADERS) == At(TCP, 64, [])
            && Walk(q, q[6], IPV6_BYTES, wantFrag, [], MAX_HEADERS) == Stopped(DropInvalidExthdr)
  {
    hide SetExt;
    var p := THREE_HEADERS;
    assert Chain(p, TCP, 64, wantFrag, 0, TCP, 64);
    assert Chain(p, NEXTHDR_DEST, 56, wantFrag, 1, TCP, 64);
    assert Chain(p, NEXTHDR_ROUTING, 48, wantFrag, 2, TCP, 64);
    assert Chain(p, NEXTHDR_HOP, 40, wantFrag, 3, TCP, 64);
    OptionHarmlessIffTwoHeaders(p, addr, port, wantFrag, 3, TCP, 64);
    WalkFollowsChain(p, p[6], IPV6_BYTES, wantFrag, [], MAX_HEADERS, 3, TCP, 64);
    assert Walk(p, TCP, 64, wantFrag, [], 1) == At(TCP, 64, []);
    assert Walk(p, NEXTHDR_DEST, 56, wantFrag, [], 2) == At(TCP, 64, []);
    assert Walk(p, NEXTHDR_ROUTING, 48, wantFrag, [], 3) == At(TCP, 64, []);
  }
}
