/** `alloc_channel_mem` as the source writes it: `addr + len` is computed in
    `u16`, which wraps in a release build. `Driver.HostDriver.AllocChannelMem`
    is the corrected allocator the rest of the model uses. */
module AllocWrap {
  import opened Types
  import opened LenEncoding

  /** The allocator's outcome as written: the address handed out (if any)
      and the new first free byte. */
  datatype Alloc = Alloc(addr: Option<u16>, free: u16)

  /** `alloc_channel_mem(len)` with `ep_mem_free == free`, with `u16`
      wrap-around in both `addr + len` and `ep_mem_free += len`. As long as
      the sum does not wrap it agrees with the unbounded check. */
  function AllocAsWritten(free: u16, len: u16): (r: Alloc)
    ensures free + len < 0x1_0000 ==>
      (r.addr.Some? <==> free + len <= USBRAM_SIZE) &&
      (r.addr.Some? ==> r.addr.value == free && r.free == free + len) &&
      (r.addr.None? ==> r.free == free)
  {
    var sum := (free + len) % 0x1_0000;
    if sum > USBRAM_SIZE then Alloc(None, free) else Alloc(Some(free), sum)
  }

  /** An Out endpoint whose descriptor reports a maximum packet size of
      65520 on a fresh allocator: the rounded length 65520 wraps the check
      to 48, the buffer is handed out although it does not fit, and the next
      free byte lands at 48, inside the buffer descriptor table. */
  lemma AllocAsWrittenWrapsIntoDescriptorTable()
    ensures AlignLenUp(65520) == 65520
    ensures var r := AllocAsWritten(DESCRIPTOR_AREA, AlignLenUp(65520));
      && r.addr == Some(DESCRIPTOR_AREA)
      && DESCRIPTOR_AREA + AlignLenUp(65520) > USBRAM_SIZE
      && r.free == 48 && r.free < DESCRIPTOR_AREA
  {
  }
}
