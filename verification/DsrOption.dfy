/**
 The DSR option of bpf/lib/nodeport.h: eight bytes of IPv4 options that carry the service address
 and port from the load balancer's node to the backend's node.
 */
module DsrOption {
  import opened Net
  import opened Checksum
  import opened Packet
  import Translation

  const OPT_TYPE: u8 := 0x9a
  const OPT_LEN: u8 := 8
  const OPT_WORDS := 4
  const MAX_HDR_BYTES := 60

  /** The option in memory: type and length, then port and address in swapped byte order. */
  function Option4(addr: u32, port: u16): (r: seq<u16>)
    ensures |r| == OPT_WORDS
  {
    [OPT_TYPE + 256 * OPT_LEN, Swap16(port), Swap16(addr / U16), Swap16(addr % U16)]
  }

  /** Total length field after the insertion, 16 bits wide. */
  function NewTotLen(b: Buf, l3: nat): u16
    requires Accessible(b, l3, IP_WORDS)
  {
    (Swap16(b.words[l3 + 1]) + OPT_LEN) % U16
  }

  /** The header with its length fields raised; the options may not exceed 40 bytes. */
  function Raised(b: Buf, l3: nat): (r: Buf)
    requires Accessible(b, l3, IP_WORDS) && 2 * HdrWords(b, l3) + OPT_LEN <= MAX_HDR_BYTES
    ensures r.len == b.len
  {
    b.(words := b.words[l3 := b.words[l3] + 2][l3 + 1 := Swap16(NewTotLen(b, l3))])
  }

  /** The difference of the first 32 bits of the header plus the whole option. */
  function InsertDiff(b: Buf, l3: nat, opt: seq<u16>): (r: u32)
    requires Accessible(b, l3, IP_WORDS) && 2 * HdrWords(b, l3) + OPT_LEN <= MAX_HDR_BYTES
    ensures r % M == (Load32(Raised(b, l3), l3) - Load32(b, l3) + Sum(opt)) % M
  {
    var d := CsumDiff4(Load32(b, l3), Load32(Raised(b, l3), l3));
    ModShift(d, Load32(Raised(b, l3), l3) - Load32(b, l3), Sum(opt));
    CsumPartial(opt, d)
  }

  /** Room behind the 20 fixed header bytes, filled with `opt`. */
  function Insert(b: Buf, l3: nat, opt: seq<u16>): (r: Buf)
    requires Accessible(b, l3, IP_WORDS) && |opt| == OPT_WORDS
    ensures r.len == b.len + OPT_LEN
  {
    Buf(b.words[..l3 + IP_WORDS] + opt + b.words[l3 + IP_WORDS..], b.len + OPT_LEN)
  }

  /** dsr_set_opt4; `tooBig` is the MTU check, `noRoom` a failure to enlarge the packet. */
  function SetOption(b: Buf, l3: nat, addr: u32, port: u16, need: bool, tooBig: bool, noRoom: bool): (r: Rewritten)
    requires Accessible(b, l3, IP_WORDS)
    ensures r.buf.len >= b.len
  {
    if !need then Rewritten(b, Ok)
    else if 2 * HdrWords(b, l3) + OPT_LEN > MAX_HDR_BYTES then Rewritten(b, DropCtInvalidHdr)
    else if tooBig then Rewritten(b, DropFragNeeded)
    else if noRoom then Rewritten(Raised(b, l3), DropInvalid)
    else
      var opt := Option4(addr, port);
      var b1 := Insert(Raised(b, l3), l3, opt);
      Rewritten(Store(b1, l3 + IP_CHECK, Replace(b1.words[l3 + IP_CHECK], 0, InsertDiff(b, l3, opt))), Ok)
  }

  datatype Extracted = NoInfo | Info(addr: u32, port: u16) | Unreadable

  /** The option part of nodeport_extract_dsr_v4. */
  function Extract(b: Buf, l3: nat): Extracted
    requires Accessible(b, l3, IP_WORDS)
  {
    if b.words[l3] % 16 < 7 then NoInfo
    else if !Accessible(b, l3 + IP_WORDS, OPT_WORDS) then Unreadable
    else
      var o := b.words[l3 + IP_WORDS..l3 + IP_WORDS + OPT_WORDS];
      if o[0] % 256 == OPT_TYPE && o[0] / 256 == OPT_LEN then
        Info(Word32(Swap16(o[3]), Swap16(o[2])), Swap16(o[1]))
      else NoInfo
  }

  method InsertOption(ctx: Ctx, l3: nat, addr: u32, port: u16, need: bool, tooBig: bool, noRoom: bool) returns (ret: Ret)
    requires Accessible(ctx.buf, l3, IP_WORDS)
    modifies ctx
    ensures Rewritten(ctx.buf, ret) == SetOption(old(ctx.buf), l3, addr, port, need, tooBig, noRoom)
  {
    hide Replace, CsumDiff4, CsumPartial;
    var total := (Swap16(ctx.buf.words[l3 + 1]) + OPT_LEN) % U16;
    if !need {
      return Ok;
    }
    if 2 * HdrWords(ctx.buf, l3) + OPT_LEN > MAX_HDR_BYTES {
      return DropCtInvalidHdr;
    }
    if tooBig {
      return DropFragNeeded;
    }
    var before := Load32(ctx.buf, l3);
    var ok := ctx.StoreWord(l3, ctx.buf.words[l3] + 2);
    ok := ctx.StoreWord(l3 + 1, Swap16(total));
    var after := Load32(ctx.buf, l3);
    var opt: seq<u16> := [OPT_TYPE + 256 * OPT_LEN, Swap16(port), Swap16(addr / U16), Swap16(addr % U16)];
    var sum := CsumDiff4(before, after);
    sum := CsumPartial(opt, sum);
    if noRoom {
      return DropInvalid;
    }
    ctx.buf := Insert(ctx.buf, l3, opt);
    ok := ctx.StoreWord(l3 + IP_CHECK, Replace(ctx.buf.words[l3 + IP_CHECK], 0, sum));
    return Ok;
  }

  // ---- what the receiver sees ----

  /** The words of the enlarged header, in terms of the old header. */
  lemma InsertedHeader(b: Buf, l3: nat, hw: nat, opt: seq<u16>, ck: u16)
    requires Accessible(b, l3, IP_WORDS) && hw == HdrWords(b, l3) && IP_WORDS <= hw && l3 + hw <= |b.words|
    requires 2 * hw + OPT_LEN <= MAX_HDR_BYTES && |opt| == OPT_WORDS
    ensures var hdr := b.words[l3..l3 + hw];
            var hdr' := hdr[0 := b.words[l3] + 2][1 := Swap16(NewTotLen(b, l3))][IP_CHECK := ck];
            Store(Insert(Raised(b, l3), l3, opt), l3 + IP_CHECK, ck).words[l3..l3 + hw + OPT_WORDS]
            == hdr'[..IP_WORDS] + opt + hdr'[IP_WORDS..]
  {
    hide NewTotLen, Swap16;
    var a: seq<u16> := Raised(b, l3).words;
    var a': seq<u16> := a[l3 + IP_CHECK := ck];
    var w := Store(Insert(Raised(b, l3), l3, opt), l3 + IP_CHECK, ck).words;
    assert w == a'[..l3 + IP_WORDS] + opt + a'[l3 + IP_WORDS..];
    assert w[l3..l3 + hw + OPT_WORDS] == a'[l3..l3 + IP_WORDS] + opt + a'[l3 + IP_WORDS..l3 + hw];
    var hdr': seq<u16> := a'[l3..l3 + hw];
    assert hdr' == b.words[l3..l3 + hw][0 := b.words[l3] + 2][1 := Swap16(NewTotLen(b, l3))][IP_CHECK := ck];
    assert hdr'[..IP_WORDS] == a'[l3..l3 + IP_WORDS] && hdr'[IP_WORDS..] == a'[l3 + IP_WORDS..l3 + hw];
  }

  lemma InsertedSum(hdr: seq<u16>, w0: u16, w1: u16, ck: u16, opt: seq<u16>)
    requires IP_WORDS <= |hdr|
    ensures var hdr' := hdr[0 := w0][1 := w1][IP_CHECK := ck];
            Sum(hdr'[..IP_WORDS] + opt + hdr'[IP_WORDS..])
            == Sum(hdr) + Delta(hdr, 0, w0) + Delta(hdr, 1, w1) + Delta(hdr, IP_CHECK, ck) + Sum(opt)
  {
    var hdr': seq<u16> := hdr[0 := w0][1 := w1][IP_CHECK := ck];
    ThreeStores(hdr, 0, w0, 1, w1, IP_CHECK, ck);
    assert hdr' == hdr'[..IP_WORDS] + hdr'[IP_WORDS..];
    SumConcat(hdr'[..IP_WORDS], hdr'[IP_WORDS..]);
    SumConcat(hdr'[..IP_WORDS] + opt, hdr'[IP_WORDS..]);
    SumConcat(hdr'[..IP_WORDS], opt);
  }

  /** The checksum moves against the whole change of the header. */
  lemma InsertMoves(b: Buf, l3: nat, opt: seq<u16>, ck: u16)
    requires Accessible(b, l3, IP_WORDS) && 2 * HdrWords(b, l3) + OPT_LEN <= MAX_HDR_BYTES
    requires ck == Replace(b.words[l3 + IP_CHECK], 0, InsertDiff(b, l3, opt))
    ensures (Delta(b.words, l3, b.words[l3] + 2) + Delta(b.words, l3 + 1, Swap16(NewTotLen(b, l3)))
             + Delta(b.words, l3 + IP_CHECK, ck) + Sum(opt)) % M == 0
  {
    hide Replace, InsertDiff, NewTotLen;
    var d0, d1 := Delta(b.words, l3, b.words[l3] + 2), Delta(b.words, l3 + 1, Swap16(NewTotLen(b, l3)));
    var dk, s := Delta(b.words, l3 + IP_CHECK, ck), Sum(opt);
    var whole := Load32(Raised(b, l3), l3) - Load32(b, l3);
    assert whole == d0 + U16 * d1;
    ShiftedSum(InsertDiff(b, l3, opt), whole, d0, d1, dk, s);
  }

  lemma ShiftedSum(diff: int, whole: int, d0: int, d1: int, dk: int, s: int)
    requires whole == d0 + U16 * d1 && diff % M == (whole + s) % M && (dk + diff) % M == 0
    ensures (d0 + d1 + dk + s) % M == 0
  {
  }

  lemma InsertedVerifies(b: Buf, l3: nat, hw: nat, opt: seq<u16>, ck: u16)
    requires Accessible(b, l3, IP_WORDS) && hw == HdrWords(b, l3) && IP_WORDS <= hw && l3 + hw <= |b.words|
    requires 2 * hw + OPT_LEN <= MAX_HDR_BYTES && |opt| == OPT_WORDS
    requires ck == Replace(b.words[l3 + IP_CHECK], 0, InsertDiff(b, l3, opt))
    requires Verifies(b.words[l3..l3 + hw])
    ensures Verifies(Store(Insert(Raised(b, l3), l3, opt), l3 + IP_CHECK, ck).words[l3..l3 + hw + OPT_WORDS])
  {
    hide Replace, InsertDiff, NewTotLen, Verifies, Swap16;
    var hdr: seq<u16> := b.words[l3..l3 + hw];
    var w0, w1 := b.words[l3] + 2, Swap16(NewTotLen(b, l3));
    InsertedHeader(b, l3, hw, opt, ck);
    InsertedSum(hdr, w0, w1, ck, opt);
    InsertMoves(b, l3, opt, ck);
    Translation.KeepsVerifying(hdr, Store(Insert(Raised(b, l3), l3, opt), l3 + IP_CHECK, ck).words[l3..l3 + hw + OPT_WORDS],
                               Delta(hdr, 0, w0) + Delta(hdr, 1, w1) + Delta(hdr, IP_CHECK, ck) + Sum(opt));
  }

  /** The insertion as stores, and what lies around the option. */
  lemma InsertShape(b: Buf, l3: nat, addr: u32, port: u16, ck: u16)
    requires Accessible(b, l3, IP_WORDS) && 2 * HdrWords(b, l3) + OPT_LEN <= MAX_HDR_BYTES
    requires ck == Replace(b.words[l3 + IP_CHECK], 0, InsertDiff(b, l3, Option4(addr, port)))
    ensures var b' := Store(Insert(Raised(b, l3), l3, Option4(addr, port)), l3 + IP_CHECK, ck);
            && SetOption(b, l3, addr, port, true, false, false) == Rewritten(b', Ok)
            && b'.words[l3] == b.words[l3] + 2 && b'.words[l3 + 1] == Swap16(NewTotLen(b, l3))
            && b'.words[l3 + IP_TTL] == b.words[l3 + IP_TTL]
            && b'.words[l3 + SADDR..l3 + IP_WORDS] == b.words[l3 + SADDR..l3 + IP_WORDS]
            && b'.words[l3 + IP_WORDS..l3 + IP_WORDS + OPT_WORDS] == Option4(addr, port)
            && b'.words[l3 + IP_WORDS + OPT_WORDS..] == b.words[l3 + IP_WORDS..]
  {
    hide Replace, InsertDiff, NewTotLen, Swap16, Option4;
  }

  lemma ExtractInserted(b: Buf, l3: nat, addr: u32, port: u16)
    requires Accessible(b, l3, IP_WORDS + OPT_WORDS) && b.words[l3] % 16 >= 7
    requires b.words[l3 + IP_WORDS..l3 + IP_WORDS + OPT_WORDS] == Option4(addr, port)
    ensures Extract(b, l3) == Info(addr, port)
  {
    Swap16Twice(port);
    Swap16Twice(addr / U16);
    Swap16Twice(addr % U16);
  }

  lemma SetRefused(b: Buf, l3: nat, addr: u32, port: u16)
    requires Accessible(b, l3, IP_WORDS) && b.words[l3] % 16 > 13
    ensures SetOption(b, l3, addr, port, true, false, false) == Rewritten(b, DropCtInvalidHdr)
  {
  }

  lemma IhlPlusTwo(w: u16)
    requires w % 16 <= 13
    ensures (w + 2) % 16 == w % 16 + 2
  {
  }

  /** Whatever its checksum, an inserted option is read back, and the rest of the packet is as before. */
  lemma OptionReadBack(b: Buf, l3: nat, addr: u32, port: u16)
    requires Accessible(b, l3, IP_WORDS) && 5 <= b.words[l3] % 16 <= 13
    ensures var out := SetOption(b, l3, addr, port, true, false, false);
            && out.ret == Ok && out.buf.len == b.len + OPT_LEN && Extract(out.buf, l3) == Info(addr, port)
            && out.buf.words[l3] == b.words[l3] + 2 && HdrWords(out.buf, l3) == HdrWords(b, l3) + OPT_WORDS
            && out.buf.words[l3 + 1] == Swap16(NewTotLen(b, l3))
            && out.buf.words[l3 + IP_TTL] == b.words[l3 + IP_TTL]
            && out.buf.words[l3 + SADDR..l3 + IP_WORDS] == b.words[l3 + SADDR..l3 + IP_WORDS]
            && out.buf.words[l3 + IP_WORDS + OPT_WORDS..] == b.words[l3 + IP_WORDS..]
  {
    hide Replace, InsertDiff, Extract, SetOption, Raised, Option4, Swap16;
    IhlPlusTwo(b.words[l3]);
    InsertShape(b, l3, addr, port, Replace(b.words[l3 + IP_CHECK], 0, InsertDiff(b, l3, Option4(addr, port))));
    ExtractInserted(SetOption(b, l3, addr, port, true, false, false).buf, l3, addr, port);
  }

  /**
   A receiver of the packet with the option sees a header of at most 60 bytes, eight bytes longer,
   whose checksum is valid, reads the address and port that were put in, and finds everything
   behind the fixed header unchanged. The option is refused exactly when it does not fit.
   */
  lemma InsertKeepsHeader(b: Buf, l3: nat, addr: u32, port: u16)
    requires Accessible(b, l3, IP_WORDS) && b.words[l3] % 16 >= 5
    requires l3 + HdrWords(b, l3) <= |b.words| && Verifies(b.words[l3..l3 + HdrWords(b, l3)])
    ensures var out := SetOption(b, l3, addr, port, true, false, false);
            && (out.ret == Ok <==> b.words[l3] % 16 <= 13)
            && (out.ret == Ok ==>
                  && b.words[l3] % 16 + 2 == out.buf.words[l3] % 16 <= 15
                  && Swap16(out.buf.words[l3 + 1]) == (Swap16(b.words[l3 + 1]) + 8) % U16
                  && Verifies(out.buf.words[l3..l3 + HdrWords(out.buf, l3)])
                  && Extract(out.buf, l3) == Info(addr, port)
                  && out.buf.words[l3 + IP_WORDS + OPT_WORDS..] == b.words[l3 + IP_WORDS..])
  {
    hide Extract, SetOption, Verifies, Swap16;
    if b.words[l3] % 16 > 13 {
      SetRefused(b, l3, addr, port);
    } else {
      IhlPlusTwo(b.words[l3]);
      Swap16Twice(NewTotLen(b, l3));
      OptionReadBack(b, l3, addr, port);
      EnlargedVerifies(b, l3, addr, port);
    }
  }

  lemma EnlargedVerifies(b: Buf, l3: nat, addr: u32, port: u16)
    requires Accessible(b, l3, IP_WORDS) && 5 <= b.words[l3] % 16 <= 13
    requires l3 + HdrWords(b, l3) <= |b.words| && Verifies(b.words[l3..l3 + HdrWords(b, l3)])
    ensures var out := SetOption(b, l3, addr, port, true, false, false).buf;
            var end := l3 + HdrWords(b, l3) + OPT_WORDS;
            end <= |out.words| && Verifies(out.words[l3..end])
  {
    hide Replace, InsertDiff, SetOption, Verifies, Raised, Option4, Insert;
    var hw, opt := HdrWords(b, l3), Option4(addr, port);
    var ck := Replace(b.words[l3 + IP_CHECK], 0, InsertDiff(b, l3, opt));
    InsertShape(b, l3, addr, port, ck);
    InsertedVerifies(b, l3, hw, opt, ck);
  }
}
