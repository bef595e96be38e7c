/** Buffer lengths as the packet memory and the receive buffer descriptor
    see them: rounding up to the access granularity, and the piecewise
    block-count code the peripheral reads from a receive descriptor. */
module LenEncoding {
  import opened Types

  /** Rounds `len` up to a multiple of the access granularity. The source
      computes in `usize` and casts back to `u16`, so the three largest
      values wrap around to zero. */
  function AlignLenUp(len: u16): (r: u16)
    ensures len <= 0xFFFC ==> r % USBRAM_ALIGN == 0 && len <= r < len + USBRAM_ALIGN
    ensures len > 0xFFFC ==> r == 0
  {
    ((len + USBRAM_ALIGN - 1) / USBRAM_ALIGN * USBRAM_ALIGN) % 0x1_0000
  }

  /** The rounded buffer length and the descriptor code for it. The code
      belongs in the upper half of the receive descriptor word. */
  datatype LenBits = LenBits(actual: u16, bits: u16)

  /** The peripheral's reading of a receive length code: bit 15 selects
      32-byte blocks (counted from one) or 2-byte blocks (counted from
      zero), bits 10..14 hold the block count. */
  function DecodeLenBits(bits: u16): nat
  {
    var field := bits / 1024 % 32;
    if bits >= 0x8000 then (field + 1) * 32 else field * 2
  }

  /** Lengths the receive encoding accepts; the source panics on any other. */
  predicate ValidReceiveLen(len: u16)
  {
    2 <= len <= 1024
  }

  /** A length of at most 60 bytes, even, is coded as its count of 2-byte
      blocks with bit 15 clear. */
  lemma TwoByteCode(actual: nat)
    requires actual <= 60 && actual % 2 == 0
    ensures actual / 2 * 1024 < 0x8000 && actual / 2 * 1024 % 1024 == 0
    ensures DecodeLenBits(actual / 2 * 1024) == actual
  {
    assert actual / 2 * 1024 / 1024 == actual / 2;
  }

  /** Between 61 and 1024 bytes take 2 to 32 blocks of 32 bytes. */
  lemma BlockCount(len: nat)
    requires 61 <= len <= 1024
    ensures 2 <= (len + 31) / 32 <= 32
    ensures len <= (len + 31) / 32 * 32 <= len + 31
  {
  }

  /** `blocks` 32-byte blocks are coded as `blocks - 1` with bit 15 set. */
  lemma BlockCode(blocks: nat)
    requires 1 <= blocks <= 32
    ensures 0x8000 <= (blocks - 1) * 1024 + 0x8000 < 0x1_0000
    ensures ((blocks - 1) * 1024 + 0x8000) % 1024 == 0
    ensures DecodeLenBits((blocks - 1) * 1024 + 0x8000) == blocks * 32
  {
    assert ((blocks - 1) * 1024 + 0x8000) / 1024 == blocks + 31;
  }

  /** The receive descriptor code for a maximum packet size; `None` wherever
      the source panics. `(x << 10) | 0x8000` is written `x * 1024 + 0x8000`,
      which is the same value because `x * 1024 < 0x8000`. */
  function CalcReceiveLenBits(len: u16): (r: Option<LenBits>)
    ensures r.Some? <==> ValidReceiveLen(len)
    ensures r.Some? ==> len <= r.value.actual && r.value.actual % USBRAM_ALIGN == 0
    ensures r.Some? ==> DecodeLenBits(r.value.bits) == r.value.actual
    ensures r.Some? ==> r.value.bits % 1024 == 0
    ensures r.Some? && len <= 60 ==>
      r.value.actual == AlignLenUp(len) && r.value.actual < len + USBRAM_ALIGN && r.value.bits < 0x8000
    ensures r.Some? && len > 60 ==>
      r.value.actual % 32 == 0 && r.value.actual <= len + 31 && r.value.bits >= 0x8000
  {
    if 2 <= len <= 60 then
      var actual := AlignLenUp(len);
      TwoByteCode(actual);
      Some(LenBits(actual, actual / 2 * 1024))
    else if 61 <= len <= 1024 then
      var blocks := (len + 31) / 32;
      BlockCount(len);
      BlockCode(blocks);
      Some(LenBits(blocks * 32, (blocks - 1) * 1024 + 0x8000))
    else
      None
  }

  /** Encoding an already rounded length again changes nothing: the rounded
      length is a fixed point of the encoding. */
  lemma EncodingIdempotent(len: u16)
    requires ValidReceiveLen(len)
    ensures CalcReceiveLenBits(CalcReceiveLenBits(len).value.actual) == CalcReceiveLenBits(len)
  {
    var lb := CalcReceiveLenBits(len).value;
    if len <= 60 {
      assert 4 <= lb.actual <= 60;
      assert AlignLenUp(lb.actual) == lb.actual;
    } else {
      assert 64 <= lb.actual <= 1024;
      assert (lb.actual + 31) / 32 == lb.actual / 32;
    }
  }
}
