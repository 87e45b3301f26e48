/** IP addresses as the program compares them. */
module Net {

  /** An address of net/netip: the zero address, an IPv4 address, an IPv4-mapped IPv6 address
      or any other IPv6 address. Addresses are map keys, so two forms of one host are different keys. */
  datatype Addr =
    | NoAddr
    | V4(bits: nat)
    | Mapped(bits: nat, zone: string)
    | V6(bits: nat, zone: string)
  {
    predicate IsValid() {
      !NoAddr?
    }

    /** Removes an IPv4-mapped prefix, and the zone with it. */
    function Unmap(): Addr {
      if Mapped? then V4(bits) else this
    }
  }
}
