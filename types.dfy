/** Machine integer widths, platform constants and the small value types shared
    by the host-mode USB driver model. */
module Types {

  type u8 = x: int | 0 <= x < 0x100
  type u16 = x: int | 0 <= x < 0x1_0000
  type u32 = x: int | 0 <= x < 0x1_0000_0000

  /** Number of hardware channel registers (and buffer descriptor pairs). */
  const EP_COUNT: nat := 8
  /** Access granularity of packet memory on the 32-bit USBRAM variant. */
  const USBRAM_ALIGN: nat := 4
  /** Packet memory size in bytes on the 32-bit, 2048-byte USBRAM variant. */
  const USBRAM_SIZE: nat := 2048
  /** Packet memory size in words. */
  const RAM_WORDS: nat := USBRAM_SIZE / USBRAM_ALIGN
  /** Bytes reserved at the start of packet memory for the descriptor table:
      two 32-bit descriptor words per channel. */
  const DESCRIPTOR_AREA: nat := EP_COUNT * 8

  datatype Option<T> = None | Some(value: T)

  /** The failures a channel transfer can report. */
  datatype ChannelError = Disconnected | Timeout | Stall | BufferOverflow

  datatype Result<T> = Ok(value: T) | Err(error: ChannelError)

  /** Outcome of one poll of an asynchronous operation. */
  datatype Poll<T> = Pending | Ready(value: T)

  /** Transfer type as the USB endpoint descriptor states it. */
  datatype EndpointType = Control | Isochronous | Bulk | Interrupt

  /** Transfer type as the channel register encodes it. */
  datatype EpType = BULK | CONTROL | ISO | INTERRUPT

  /** Maps a descriptor's transfer type onto the register encoding. */
  function ConvertType(t: EndpointType): (r: EpType)
    ensures EndpointTypeOf(r) == t
  {
    match t
    case Bulk => EpType.BULK
    case Control => EpType.CONTROL
    case Interrupt => EpType.INTERRUPT
    case Isochronous => EpType.ISO
  }

  /** The inverse reading of a register transfer type. */
  function EndpointTypeOf(e: EpType): EndpointType
  {
    match e
    case BULK => Bulk
    case CONTROL => Control
    case INTERRUPT => Interrupt
    case ISO => Isochronous
  }

  function Min(a: int, b: int): int
  {
    if a <= b then a else b
  }
}
