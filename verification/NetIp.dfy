/** The parts of Go's net/netip the modelled code uses; a zone is never attached. */
module NetIp {
  import opened Bytes

  type Bytes16 = s: seq<byte> | |s| == 16 witness [0, 0, 0, 0, 0, 0, 0, 0, 0, 0, 0, 0, 0, 0, 0, 0]

  const ZERO16: Bytes16 := [0, 0, 0, 0, 0, 0, 0, 0, 0, 0, 0, 0, 0, 0, 0, 0]
  const LOOPBACK16: Bytes16 := [0, 0, 0, 0, 0, 0, 0, 0, 0, 0, 0, 0, 0, 0, 0, 1]
  const MAPPED_PREFIX: seq<byte> := [0, 0, 0, 0, 0, 0, 0, 0, 0, 0, 0xff, 0xff]

  /** The zero Addr is Invalid; V4 holds the address as a big-endian integer. */
  datatype Addr = Invalid | V4(v: u32) | V6(b: Bytes16) {
    predicate IsValid() {
      !Invalid?
    }

    predicate IsUnspecified() {
      this == V4(0) || this == V6(ZERO16)
    }

    /** An IPv4-mapped IPv6 address becomes the IPv4 address. */
    function Unmap(): Addr {
      if V6? && b[..12] == MAPPED_PREFIX then V4(U32(b, 12)) else this
    }

    predicate IsMulticast() {
      match Unmap()
      case V4(v) => v / 0x1000_0000 == 0xe
      case V6(b) => b[0] == 0xff
      case Invalid => false
    }

    predicate IsLoopback() {
      match Unmap()
      case V4(v) => v / 0x100_0000 == 127
      case V6(b) => b == LOOPBACK16
      case Invalid => false
    }

    /** The 16-byte form, IPv4 mapped into ::ffff:0:0/96. */
    function As16(): Bytes16
      requires IsValid()
    {
      if V4? then MAPPED_PREFIX + Put32(v) else b
    }
  }

  lemma As16Unmaps(a: Addr)
    requires a.IsValid()
    ensures V6(a.As16()).Unmap() == a.Unmap()
  {
    if a.V4? {
      var b := a.As16();
      assert b[..12] == MAPPED_PREFIX;
      Put32Reads(a.v);
      assert b[12..16] == Put32(a.v);
      U32Within(b, 12, a.v);
    }
  }
}
