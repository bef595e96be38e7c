/** The host driver's channel bookkeeping: the bump allocator over packet
    memory, the two in-use bitmasks, claiming a channel (mask, memory,
    descriptor, register), the descriptor-driven `alloc_channel_in` and
    `alloc_channel_out`, and re-claiming the control channel pair. */
module Driver {
  import opened Types
  import opened LenEncoding
  import opened Registers
  import opened Codec
  import opened BufferTable
  import opened Peripheral
  import opened Channels

  /** A region handed out by the allocator. */
  datatype Region = Region(addr: nat, len: nat)

  /** `rs` lies back to back from byte `start` to byte `end`. */
  predicate Tiled(rs: seq<Region>, start: nat, end: nat)
    decreases |rs|
  {
    if rs == [] then start == end else rs[0].addr == start && Tiled(rs[1..], start + rs[0].len, end)
  }

  /** A region allocated at the end of a tiling extends it. */
  lemma {:induction false} TiledExtend(rs: seq<Region>, start: nat, end: nat, len: nat)
    requires Tiled(rs, start, end)
    ensures Tiled(rs + [Region(end, len)], start, end + len)
    decreases |rs|
  {
    if rs != [] {
      assert (rs + [Region(end, len)])[1..] == rs[1..] + [Region(end, len)];
      TiledExtend(rs[1..], start + rs[0].len, end, len);
    }
  }

  /** The regions of a tiling lie between its ends and never overlap: each
      ends before any later one begins. */
  lemma {:induction false} TiledDisjoint(rs: seq<Region>, start: nat, end: nat)
    requires Tiled(rs, start, end)
    ensures forall i :: 0 <= i < |rs| ==> start <= rs[i].addr && rs[i].addr + rs[i].len <= end
    ensures forall i, j :: 0 <= i < j < |rs| ==> rs[i].addr + rs[i].len <= rs[j].addr
    decreases |rs|
  {
    if rs != [] {
      TiledDisjoint(rs[1..], start + rs[0].len, end);
      assert forall i :: 1 <= i < |rs| ==> rs[i] == rs[1..][i - 1];
    }
  }

  /** `1 << index` in a `u8` mask. */
  function Bit(index: nat): bv8
    requires index < EP_COUNT
  {
    1 << index
  }

  predicate InUse(mask: bv8, index: nat)
    requires index < EP_COUNT
  {
    mask & Bit(index) != 0
  }

  /** `mask | (1 << index)`: marks `index` and keeps every other mark. */
  function Claimed(mask: bv8, index: nat): (m: bv8)
    requires index < EP_COUNT
    ensures forall j :: 0 <= j < EP_COUNT ==> (InUse(m, j) <==> j == index || InUse(mask, j))
  {
    mask | Bit(index)
  }

  /** An endpoint descriptor as the upper layers pass it in. */
  datatype EndpointDescriptor = EndpointDescriptor(endpointAddress: u8, maxPacketSize: u16, epType: EndpointType)

  /** `desc.endpoint_address - 0x80` with `u8` wrap-around: the endpoint number
      of an In address; an Out address (below 0x80) wraps to 128 or more. */
  function InIndex(endpointAddress: u8): (index: u8)
    ensures endpointAddress >= 0x80 ==> index == endpointAddress - 0x80
    ensures endpointAddress < 0x80 ==> index >= 0x80
  {
    (endpointAddress - 0x80) % 0x100
  }

  /** Indices `alloc_channel_in`/`alloc_channel_out` accept: not the control
      channel and below `EP_COUNT`. */
  predicate AllocatableIndex(index: nat)
  {
    index != 0 && !(index > EP_COUNT - 1)
  }

  class HostDriver {
    const hw: Usb
    /** First free byte of packet memory. */
    var epMemFree: nat
    var channelsInUsed: bv8
    var channelsOutUsed: bv8
    var controlChannelIn: Channel
    var controlChannelOut: Channel
    /** The regions handed out since the last reset, in order. */
    ghost var regions: seq<Region>

    ghost predicate Valid()
      reads this
    {
      hw.Valid() &&
      DESCRIPTOR_AREA <= epMemFree <= USBRAM_SIZE && epMemFree % USBRAM_ALIGN == 0 &&
      Tiled(regions, DESCRIPTOR_AREA, epMemFree) &&
      ChannelValid(controlChannelIn) && ChannelValid(controlChannelOut)
    }

    /** The state `USBHostDriver::new` leaves: nothing allocated past the
        descriptor table, no channel in use, both control channels unbound. */
    constructor (hw: Usb)
      requires hw.Valid()
      ensures Valid() && this.hw == hw
      ensures epMemFree == DESCRIPTOR_AREA && channelsInUsed == 0 && channelsOutUsed == 0 && regions == []
      ensures controlChannelIn == Channel(0, 0, EndpointBuffer(0, 0))
      ensures controlChannelOut == Channel(0, 0, EndpointBuffer(0, 0))
    {
      this.hw := hw;
      epMemFree := EP_COUNT * 8;
      controlChannelIn := Channel(0, 0, EndpointBuffer(0, 0));
      controlChannelOut := Channel(0, 0, EndpointBuffer(0, 0));
      channelsInUsed := 0;
      channelsOutUsed := 0;
      regions := [];
    }

    /** `reset_alloc`: all packet memory past the descriptor table is free
        again and no channel is in use. */
    method ResetAlloc()
      requires Valid()
      modifies this`epMemFree, this`channelsInUsed, this`channelsOutUsed, this`regions
      ensures Valid()
      ensures epMemFree == DESCRIPTOR_AREA && channelsInUsed == 0 && channelsOutUsed == 0 && regions == []
      ensures forall i :: 0 <= i < EP_COUNT ==> !InUse(channelsInUsed, i) && !InUse(channelsOutUsed, i)
    {
      epMemFree := EP_COUNT * 8;
      channelsInUsed := 0;
      channelsOutUsed := 0;
      regions := [];
    }

    /** `alloc_channel_mem`: hands out the next `len` bytes, or fails and
        changes nothing when they do not fit in packet memory. A returned
        region lies past the descriptor table, inside packet memory, and
        after every region handed out before it. */
    method AllocChannelMem(len: u16) returns (r: Option<u16>)
      requires Valid()
      requires len % USBRAM_ALIGN == 0
      modifies this`epMemFree, this`regions
      ensures Valid()
      ensures old(epMemFree) + len > USBRAM_SIZE ==>
        r == None && epMemFree == old(epMemFree) && regions == old(regions)
      ensures old(epMemFree) + len <= USBRAM_SIZE ==>
        r == Some(old(epMemFree)) && epMemFree == old(epMemFree) + len &&
        regions == old(regions) + [Region(old(epMemFree), len)]
      ensures r.Some? ==> DESCRIPTOR_AREA <= r.value && r.value + len <= USBRAM_SIZE
      ensures r.Some? ==> forall i :: 0 <= i < |old(regions)| ==> old(regions)[i].addr + old(regions)[i].len <= r.value
    {
      var addr := epMemFree;
      if addr + len > USBRAM_SIZE {
        return None;
      }
      TiledDisjoint(regions, DESCRIPTOR_AREA, epMemFree);
      TiledExtend(regions, DESCRIPTOR_AREA, epMemFree, len);
      epMemFree := epMemFree + len;
      regions := regions + [Region(addr, len)];
      r := Some(addr);
    }

    /** `claim_channel_in`: fails with nothing changed when the index is in
        use. Otherwise marks it (the mark stays even when memory then runs
        out), allocates the rounded receive length, programs the receive
        descriptor and binds the channel register. The source panics when
        the maximum packet size has no receive encoding. */
    method ClaimChannelIn(index: nat, maxPacketSize: u16, epType: EpType, devAddr: u8) returns (r: Option<Channel>)
      requires Valid() && index < EP_COUNT
      requires !InUse(channelsInUsed, index) ==> ValidReceiveLen(maxPacketSize)
      modifies this`epMemFree, this`regions, this`channelsInUsed, hw.epr, hw.ram
      ensures Valid()
      ensures channelsOutUsed == old(channelsOutUsed)
      ensures controlChannelIn == old(controlChannelIn) && controlChannelOut == old(controlChannelOut)
      ensures old(InUse(channelsInUsed, index)) ==>
        r == None && channelsInUsed == old(channelsInUsed) && epMemFree == old(epMemFree) &&
        regions == old(regions) && hw.epr[..] == old(hw.epr[..]) && hw.ram[..] == old(hw.ram[..])
      ensures !old(InUse(channelsInUsed, index)) ==>
        var lb := CalcReceiveLenBits(maxPacketSize).value;
        channelsInUsed == Claimed(old(channelsInUsed), index) &&
        (r.Some? <==> old(epMemFree) + lb.actual <= USBRAM_SIZE) &&
        (r.None? ==> epMemFree == old(epMemFree) && regions == old(regions) &&
                     hw.epr[..] == old(hw.epr[..]) && hw.ram[..] == old(hw.ram[..])) &&
        (r.Some? ==>
          r.value == Channel(index, maxPacketSize, EndpointBuffer(old(epMemFree), lb.actual)) &&
          epMemFree == old(epMemFree) + lb.actual &&
          regions == old(regions) + [Region(old(epMemFree), lb.actual)] &&
          hw.ram[..] == old(hw.ram[..])[2 * index + 1 := DescriptorWord(old(epMemFree), lb.bits)] &&
          hw.epr[..] == old(hw.epr[..])[index := old(hw.epr[index]).(devAddr := devAddr, epType := epType, ea := index)])
      ensures r.Some? ==> ChannelValid(r.value)
    {
      if InUse(channelsInUsed, index) {
        return None;
      }
      channelsInUsed := Claimed(channelsInUsed, index);
      var lb := CalcReceiveLenBits(maxPacketSize).value;
      var addr := AllocChannelMem(lb.actual);
      if addr.None? {
        return None;
      }
      WriteReceiveBufferDescriptor(hw.ram, index, addr.value, lb.bits);
      var ch := Channel(index, maxPacketSize, EndpointBuffer(addr.value, lb.actual));
      var cur := hw.epr[index];
      hw.WriteEpr(index, ConfigureValue(cur, devAddr, epType, index));
      r := Some(ch);
    }

    /** `claim_channel_out`: as `ClaimChannelIn`, with the maximum packet size
        rounded up to the access granularity and no descriptor written: the
        transmit descriptor is written with each transfer. */
    method ClaimChannelOut(index: nat, maxPacketSize: u16, epType: EpType, devAddr: u8) returns (r: Option<Channel>)
      requires Valid() && index < EP_COUNT
      modifies this`epMemFree, this`regions, this`channelsOutUsed, hw.epr
      ensures Valid()
      ensures channelsInUsed == old(channelsInUsed) && hw.ram[..] == old(hw.ram[..])
      ensures controlChannelIn == old(controlChannelIn) && controlChannelOut == old(controlChannelOut)
      ensures old(InUse(channelsOutUsed, index)) ==>
        r == None && channelsOutUsed == old(channelsOutUsed) && epMemFree == old(epMemFree) &&
        regions == old(regions) && hw.epr[..] == old(hw.epr[..])
      ensures !old(InUse(channelsOutUsed, index)) ==>
        var len := AlignLenUp(maxPacketSize);
        channelsOutUsed == Claimed(old(channelsOutUsed), index) &&
        (r.Some? <==> old(epMemFree) + len <= USBRAM_SIZE) &&
        (r.None? ==> epMemFree == old(epMemFree) && regions == old(regions) && hw.epr[..] == old(hw.epr[..])) &&
        (r.Some? ==>
          r.value == Channel(index, maxPacketSize, EndpointBuffer(old(epMemFree), len)) &&
          epMemFree == old(epMemFree) + len &&
          regions == old(regions) + [Region(old(epMemFree), len)] &&
          hw.epr[..] == old(hw.epr[..])[index := old(hw.epr[index]).(devAddr := devAddr, epType := epType, ea := index)])
      ensures r.Some? ==> ChannelValid(r.value)
    {
      if InUse(channelsOutUsed, index) {
        return None;
      }
      channelsOutUsed := Claimed(channelsOutUsed, index);
      var len := AlignLenUp(maxPacketSize);
      var addr := AllocChannelMem(len);
      if addr.None? {
        return None;
      }
      var ch := Channel(index, maxPacketSize, EndpointBuffer(addr.value, len));
      var cur := hw.epr[index];
      hw.WriteEpr(index, ConfigureValue(cur, devAddr, epType, index));
      r := Some(ch);
    }

    /** `alloc_channel_in`: the channel index is the endpoint address less
        0x80; index 0 and indices past the last channel are refused before
        anything changes. The device address is the one channel 0 holds. */
    method AllocChannelIn(desc: EndpointDescriptor) returns (r: Option<Channel>)
      requires Valid()
      requires AllocatableIndex(InIndex(desc.endpointAddress)) && !InUse(channelsInUsed, InIndex(desc.endpointAddress)) ==>
        ValidReceiveLen(desc.maxPacketSize)
      modifies this`epMemFree, this`regions, this`channelsInUsed, hw.epr, hw.ram
      ensures Valid()
      ensures !AllocatableIndex(InIndex(desc.endpointAddress)) ==>
        r == None && channelsInUsed == old(channelsInUsed) && epMemFree == old(epMemFree) &&
        regions == old(regions) && hw.epr[..] == old(hw.epr[..]) && hw.ram[..] == old(hw.ram[..])
      ensures r.Some? ==>
        AllocatableIndex(InIndex(desc.endpointAddress)) && ChannelValid(r.value) &&
        r.value.index == InIndex(desc.endpointAddress) && r.value.maxPacketSize == desc.maxPacketSize &&
        hw.epr[r.value.index] == old(hw.epr[r.value.index]).(devAddr := old(hw.epr[0].devAddr),
                                                         epType := ConvertType(desc.epType), ea := r.value.index)
      ensures AllocatableIndex(InIndex(desc.endpointAddress)) ==>
        (r.Some? <==> !old(InUse(channelsInUsed, InIndex(desc.endpointAddress))) &&
                      old(epMemFree) + CalcReceiveLenBits(desc.maxPacketSize).value.actual <= USBRAM_SIZE)
      ensures AllocatableIndex(InIndex(desc.endpointAddress)) ==>
        var index := InIndex(desc.endpointAddress) as nat;
        && (old(InUse(channelsInUsed, index)) ==>
              r == None && channelsInUsed == old(channelsInUsed) && epMemFree == old(epMemFree) &&
              regions == old(regions) && hw.epr[..] == old(hw.epr[..]) && hw.ram[..] == old(hw.ram[..]))
        && (!old(InUse(channelsInUsed, index)) ==>
              var lb := CalcReceiveLenBits(desc.maxPacketSize).value;
              channelsInUsed == Claimed(old(channelsInUsed), index) &&
              (r.None? ==> epMemFree == old(epMemFree) && hw.epr[..] == old(hw.epr[..]) && hw.ram[..] == old(hw.ram[..])) &&
              (r.Some? ==>
                r.value == Channel(index, desc.maxPacketSize, EndpointBuffer(old(epMemFree), lb.actual)) &&
                epMemFree == old(epMemFree) + lb.actual &&
                hw.ram[..] == old(hw.ram[..])[2 * index + 1 := DescriptorWord(old(epMemFree), lb.bits)] &&
                hw.epr[..] == old(hw.epr[..])[index := old(hw.epr[index]).(devAddr := old(hw.epr[0].devAddr),
                                                                          epType := ConvertType(desc.epType), ea := index)]))
      ensures channelsOutUsed == old(channelsOutUsed)
    {
      var index := InIndex(desc.endpointAddress);
      if index == 0 {
        return None;
      }
      if index > EP_COUNT - 1 {
        return None;
      }
      var addr := hw.epr[0].devAddr;
      r := ClaimChannelIn(index, desc.maxPacketSize, ConvertType(desc.epType), addr);
    }

    /** `alloc_channel_out`: the channel index is the endpoint address itself,
        with the same refusals as `AllocChannelIn`. */
    method AllocChannelOut(desc: EndpointDescriptor) returns (r: Option<Channel>)
      requires Valid()
      modifies this`epMemFree, this`regions, this`channelsOutUsed, hw.epr
      ensures Valid()
      ensures !AllocatableIndex(desc.endpointAddress) ==>
        r == None && channelsOutUsed == old(channelsOutUsed) && epMemFree == old(epMemFree) &&
        regions == old(regions) && hw.epr[..] == old(hw.epr[..])
      ensures r.Some? ==>
        AllocatableIndex(desc.endpointAddress) && ChannelValid(r.value) &&
        r.value.index == desc.endpointAddress && r.value.maxPacketSize == desc.maxPacketSize &&
        hw.epr[r.value.index] == old(hw.epr[r.value.index]).(devAddr := old(hw.epr[0].devAddr),
                                                         epType := ConvertType(desc.epType), ea := r.value.index)
      ensures AllocatableIndex(desc.endpointAddress) ==>
        (r.Some? <==> !old(InUse(channelsOutUsed, desc.endpointAddress)) &&
                      old(epMemFree) + AlignLenUp(desc.maxPacketSize) <= USBRAM_SIZE)
      ensures AllocatableIndex(desc.endpointAddress) ==>
        var index := desc.endpointAddress as nat;
        && (old(InUse(channelsOutUsed, index)) ==>
              r == None && channelsOutUsed == old(channelsOutUsed) && epMemFree == old(epMemFree) &&
              regions == old(regions) && hw.epr[..] == old(hw.epr[..]))
        && (!old(InUse(channelsOutUsed, index)) ==>
              var len := AlignLenUp(desc.maxPacketSize);
              channelsOutUsed == Claimed(old(channelsOutUsed), index) &&
              (r.None? ==> epMemFree == old(epMemFree) && hw.epr[..] == old(hw.epr[..])) &&
              (r.Some? ==>
                r.value == Channel(index, desc.maxPacketSize, EndpointBuffer(old(epMemFree), len)) &&
                epMemFree == old(epMemFree) + len &&
                hw.epr[..] == old(hw.epr[..])[index := old(hw.epr[index]).(devAddr := old(hw.epr[0].devAddr),
                                                                          epType := ConvertType(desc.epType), ea := index)]))
      ensures channelsInUsed == old(channelsInUsed) && hw.ram[..] == old(hw.ram[..])
    {
      var index := desc.endpointAddress;
      if index == 0 {
        return None;
      }
      if index > EP_COUNT - 1 {
        return None;
      }
      var addr := hw.epr[0].devAddr;
      r := ClaimChannelOut(index, desc.maxPacketSize, ConvertType(desc.epType), addr);
    }

    /** `reconfigure_channel0`: frees all packet memory and claims channel 0
        in both directions as control channels for `devAddr`. The In claim
        always fits; the whole call succeeds exactly when the Out buffer
        fits too. */
    method ReconfigureChannel0(maxPacketSize: u16, devAddr: u8) returns (ok: bool)
      requires Valid() && ValidReceiveLen(maxPacketSize)
      modifies this`epMemFree, this`regions, this`channelsInUsed, this`channelsOutUsed,
               this`controlChannelIn, this`controlChannelOut, hw.epr, hw.ram
      ensures Valid()
      ensures var inLen := CalcReceiveLenBits(maxPacketSize).value.actual;
        var outLen := AlignLenUp(maxPacketSize);
        && (ok <==> DESCRIPTOR_AREA + inLen + outLen <= USBRAM_SIZE)
        && controlChannelIn == Channel(0, maxPacketSize, EndpointBuffer(DESCRIPTOR_AREA, inLen))
        && InUse(channelsInUsed, 0) && InUse(channelsOutUsed, 0)
        && (forall i :: 1 <= i < EP_COUNT ==> !InUse(channelsInUsed, i) && !InUse(channelsOutUsed, i))
        && (ok ==> controlChannelOut == Channel(0, maxPacketSize, EndpointBuffer(DESCRIPTOR_AREA + inLen, outLen))
                   && epMemFree == DESCRIPTOR_AREA + inLen + outLen)
        && (!ok ==> controlChannelOut == old(controlChannelOut) && epMemFree == DESCRIPTOR_AREA + inLen)
      ensures hw.epr[..] == old(hw.epr[..])[0 := old(hw.epr[0]).(devAddr := devAddr, epType := EpType.CONTROL, ea := 0)]
      ensures hw.ram[..] == old(hw.ram[..])[1 := DescriptorWord(DESCRIPTOR_AREA, CalcReceiveLenBits(maxPacketSize).value.bits)]
    {
      ResetAlloc();
      var rIn := ClaimChannelIn(0, maxPacketSize, EpType.CONTROL, devAddr);
      if rIn.None? {
        return false;
      }
      controlChannelIn := rIn.value;
      var rOut := ClaimChannelOut(0, maxPacketSize, EpType.CONTROL, devAddr);
      if rOut.None? {
        return false;
      }
      controlChannelOut := rOut.value;
      ok := true;
    }
  }

  /** Claiming an In channel twice fails the second time and leaves the mask
      as it was; after a reset the same claim succeeds again and binds the
      same memory. */
  method ClaimTwiceThenReset(d: HostDriver, index: nat, maxPacketSize: u16, devAddr: u8)
    returns (first: Option<Channel>, second: Option<Channel>, third: Option<Channel>)
    requires d.Valid() && index < EP_COUNT && ValidReceiveLen(maxPacketSize)
    modifies d, d.hw.epr, d.hw.ram
    ensures first.Some? && second.None? && third == first
    ensures first.value.buf.addr == DESCRIPTOR_AREA
  {
    d.ResetAlloc();
    first := d.ClaimChannelIn(index, maxPacketSize, EpType.BULK, devAddr);
    var mask := d.channelsInUsed;
    second := d.ClaimChannelIn(index, maxPacketSize, EpType.BULK, devAddr);
    assert d.channelsInUsed == mask;
    d.ResetAlloc();
    third := d.ClaimChannelIn(index, maxPacketSize, EpType.BULK, devAddr);
  }
}
