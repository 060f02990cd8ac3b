/** IPv4 socket addresses. */
module NetAddr {
  import opened MachineInts

  datatype Address = Address(port: uint16, host: uint32)
}
