/**
 The devices that the simulator connects.
 */
module Devices {
  type byte = x: int | 0 <= x < 256

  datatype Kind = Client | Server

  /** A device: the last byte of its address, the network that packets for it are moved to, and its kind. */
  datatype Device = Device(hostAddr: byte, netAddr: seq<byte>, kind: Kind)
}
