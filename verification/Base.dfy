/** Types shared by every layer of the fabric. */
module Base {

  /** One octet on the wire. */
  type byte = b: int | 0 <= b < 256

  /** Node ids travel in one octet; 0xFF is the broadcast address. */
  type NodeId = byte

  const BROADCAST: NodeId := 0xFF

  /** Sequence numbers travel in 32 bits. */
  const WRAP: nat := 0x1_0000_0000

  datatype Option<+T> = None | Some(value: T)

  /** What the source raises: `struct.error` while packing, `ValueError` while unpacking. */
  datatype Error =
    | PackRange          // a field does not fit its width
    | TooShort
    | BadMagic
    | Truncated
    | CrcMismatch
    | AuthFailed
    | NotHello
    | CapTooShort

  datatype Result<+T> = Ok(value: T) | Err(error: Error)
}
