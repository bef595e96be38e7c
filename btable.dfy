/** The buffer descriptor table at the start of packet memory: channel
    `index` owns word `2 * index` (transmit: address and byte count) and word
    `2 * index + 1` (receive: address and length code; after a reception the
    hardware stores the received byte count in its bits 16..25). */
module BufferTable {
  import opened Types

  /** `(addr as u32) | ((hi as u32) << 16)`: the address in the low half and
      `hi` in the high half, each recoverable. */
  function DescriptorWord(addr: u16, hi: u16): (w: u32)
    ensures w % 0x1_0000 == addr && w / 0x1_0000 == hi
  {
    addr + hi * 0x1_0000
  }

  /** `read_out_len(index) as usize & 0x3FF`: the received byte count held in
      bits 16..25 of a receive descriptor word. */
  function ReceivedCount(w: u32): (n: nat)
    ensures n < 0x400
  {
    w / 0x1_0000 % 0x400
  }

  /** A freshly programmed receive descriptor reports zero received bytes:
      a length code (a multiple of 1024) leaves the count field clear. */
  lemma FreshReceiveCountIsZero(addr: u16, bits: u16)
    requires bits % 1024 == 0
    ensures ReceivedCount(DescriptorWord(addr, bits)) == 0
  {
  }

  /** `btable::write_transmit_buffer_descriptor`. */
  method WriteTransmitBufferDescriptor(ram: array<u32>, index: nat, addr: u16, len: u16)
    requires ram.Length == RAM_WORDS && index < EP_COUNT
    modifies ram
    ensures ram[..] == old(ram[..])[2 * index := DescriptorWord(addr, len)]
  {
    ram[index * 2] := addr + len * 0x1_0000;
  }

  /** `btable::write_receive_buffer_descriptor`. */
  method WriteReceiveBufferDescriptor(ram: array<u32>, index: nat, addr: u16, maxLenBits: u16)
    requires ram.Length == RAM_WORDS && index < EP_COUNT
    modifies ram
    ensures ram[..] == old(ram[..])[2 * index + 1 := DescriptorWord(addr, maxLenBits)]
  {
    ram[index * 2 + 1] := addr + maxLenBits * 0x1_0000;
  }

  /** `btable::read_out_len`: the high half of the receive descriptor word. */
  function ReadOutLen(ram: seq<u32>, index: nat): (r: u16)
    requires |ram| == RAM_WORDS && index < EP_COUNT
    ensures forall addr: u16, hi: u16 {:trigger DescriptorWord(addr, hi)} ::
      ram[2 * index + 1] == DescriptorWord(addr, hi) ==> r == hi
  {
    ram[index * 2 + 1] / 0x1_0000
  }
}
