/** Addresses and packets, as far as the forwarders look at them. */
module Net {
  type Byte = b: int | 0 <= b < 256
  type Packet = seq<Byte>

  datatype Address = NoAddress | Ipv4(bytes: seq<Byte>) | Ipv6(bytes: seq<Byte>)

  datatype SocketAddress = SocketAddress(address: Address, port: nat) {
    predicate IsValid() {
      !address.NoAddress?
    }
  }

  /** A packet that left through socket `fd` towards `to`. */
  datatype Out = Out(fd: int, to: SocketAddress, packet: Packet)

  /** std::unordered_map::emplace: an existing entry stays. */
  function Emplace<K, V>(m: map<K, V>, k: K, v: V): map<K, V> {
    if k in m then m else m[k := v]
  }
}
