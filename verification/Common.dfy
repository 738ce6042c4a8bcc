/** Result types and the machine integers the protocol is written in. */
module Common {

  datatype Option<+T> = None | Some(value: T)

  datatype Result<+T, +E> = Ok(value: T) | Err(error: E) {
    predicate IsFailure() { Err? }

    function PropagateFailure<U>(): Result<U, E>
      requires Err?
    {
      Err(error)
    }

    function Extract(): T
      requires Ok?
    {
      value
    }
  }

  const U16_MAX: int := 0xFFFF
  const U32_MAX: int := 0xFFFF_FFFF
  const U64_MAX: int := 0xFFFF_FFFF_FFFF_FFFF
  const U128_MAX: int := 0xFFFF_FFFF_FFFF_FFFF_FFFF_FFFF_FFFF_FFFF

  type u8 = x: int | 0 <= x <= 0xFF
  type u16 = x: int | 0 <= x <= U16_MAX
  type u32 = x: int | 0 <= x <= U32_MAX
  type u64 = x: int | 0 <= x <= U64_MAX
  type u128 = x: int | 0 <= x <= U128_MAX
  type Bytes = seq<u8>

  datatype IpAddr = V4(address4: u32) | V6(address6: u128)

  datatype SocketAddr = SocketAddr(ip: IpAddr, port: u16)

  /** Datagram sessions are named by the non-zero 64-bit numbers. */
  type DatagramSessionId = x: u64 | x != 0 witness 1

  datatype FlowProtocol = Tcp | Udp

  datatype FlowKey = FlowKey(protocol: FlowProtocol, source: SocketAddr, destination: SocketAddr)
}
