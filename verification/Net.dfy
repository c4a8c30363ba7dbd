/**
 Machine integers, protocol numbers and the connection tuple shared by the whole
 datapath model.
 */
module Net {

  type u8 = x: int | 0 <= x < 0x100
  type u16 = x: int | 0 <= x < 0x1_0000
  type u32 = x: int | 0 <= x < 0x1_0000_0000
  type u64 = x: int | 0 <= x < 0x1_0000_0000_0000_0000

  const U16 := 0x1_0000
  const U32 := 0x1_0000_0000
  const U64 := 0x1_0000_0000_0000_0000

  const ICMP: u8 := 1
  const TCP: u8 := 6
  const UDP: u8 := 17
  const ICMPV6: u8 := 58

  /** bpf_ntohs and bpf_htons on a little-endian CPU. */
  function Swap16(x: u16): u16 {
    (x % 256) * 256 + x / 256
  }

  lemma TwoBytes(hi: u8, lo: u8)
    ensures (hi * 256 + lo) / 256 == hi && (hi * 256 + lo) % 256 == lo
  {
  }

  lemma Swap16Twice(x: u16)
    ensures Swap16(Swap16(x)) == x
  {
    TwoBytes(x % 256, x / 256);
  }

  datatype Option<+T> = None | Some(value: T)

  /** A service address and port. */
  datatype Endpoint = Endpoint(addr: u32, port: u16)

  /** The direction a packet is looked up in. */
  datatype Dir = Egress | Ingress | Service

  /** The flag byte of a tuple, as its three bits: incoming, related, service. */
  datatype TupleFlags = TupleFlags(incoming: bool, related: bool, service: bool)

  const OUT := TupleFlags(false, false, false)
  const IN := TupleFlags(true, false, false)
  const SVC := TupleFlags(false, false, true)

  /**
   An IPv4 tuple, its ports in network byte order as the CPU loads them. Conntrack stores the two
   ports in swapped order; NAT does not.
   */
  datatype Tuple = Tuple(daddr: u32, saddr: u32, dport: u16, sport: u16, nexthdr: u8, flags: TupleFlags) {

    function SwapAddrs(): Tuple {
      this.(saddr := daddr, daddr := saddr)
    }

    function SwapPorts(): Tuple {
      this.(sport := dport, dport := sport)
    }

    function FlipDir(): Tuple {
      this.(flags := flags.(incoming := !flags.incoming))
    }

    /** Both swaps, keeping the direction bit. */
    function ReverseSameDir(): Tuple {
      SwapAddrs().SwapPorts()
    }

    /** The tuple of a packet travelling the other way. */
    function Reverse(): Tuple {
      ReverseSameDir().FlipDir()
    }
  }

  /** The outcome of a packet handler: success or the reason for a drop. */
  datatype Ret =
    | Ok
    | PuntToStack
    | Redirect
    | DropInvalid
    | DropWriteError
    | DropCsumL3
    | DropCsumL4
    | DropUnknownL4
    | DropUnknownIcmpCode
    | DropNatNoMapping
    | DropNatDelete
    | DropCtLookup
    | DropCtCreateFailed
    | DropCtUnknownProto
    | DropCtInvalidHdr
    | DropInvalidExthdr
    | DropTtlExceeded
    | DropNoService
    | DropPolicy
    | DropFragNeeded
}
