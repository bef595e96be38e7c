/** Channels bound to a hardware channel register and a packet memory
    region: arming and disabling them, moving data through their buffers,
    and the read and write transfers, whose every poll performs one step of
    `Steps` on the hardware. */
module Channels {
  import opened Types
  import opened Registers
  import opened Codec
  import opened BufferTable
  import opened Peripheral
  import opened Steps

  /** A claimed channel: its register index, negotiated maximum packet size
      and packet memory region. */
  datatype Channel = Channel(index: nat, maxPacketSize: u16, buf: EndpointBuffer)

  predicate ChannelValid(ch: Channel)
  {
    ch.index < EP_COUNT && BufferFits(ch.buf)
  }

  /** `Channel::<In>::activate`: the receive status becomes Valid; nothing
      else in any channel register changes. */
  method ActivateIn(hw: Usb, ch: Channel)
    requires hw.Valid() && ChannelValid(ch)
    modifies hw.epr
    ensures hw.epr[..] == old(hw.epr[..])[ch.index := old(hw.epr[ch.index]).(statRx := STAT_VALID)]
  {
    var cur := hw.epr[ch.index];
    hw.WriteEpr(ch.index, ActivateInValue(cur));
  }

  /** `Channel::<In>::disable`: the receive status becomes Disabled. */
  method DisableIn(hw: Usb, ch: Channel)
    requires hw.Valid() && ChannelValid(ch)
    modifies hw.epr
    ensures hw.epr[..] == old(hw.epr[..])[ch.index := old(hw.epr[ch.index]).(statRx := STAT_DISABLED)]
  {
    var cur := hw.epr[ch.index];
    hw.WriteEpr(ch.index, DisableInValue(cur));
  }

  /** `Channel::<Out>::activate`: the transmit status becomes Valid. */
  method ActivateOut(hw: Usb, ch: Channel)
    requires hw.Valid() && ChannelValid(ch)
    modifies hw.epr
    ensures hw.epr[..] == old(hw.epr[..])[ch.index := old(hw.epr[ch.index]).(statTx := STAT_VALID)]
  {
    var cur := hw.epr[ch.index];
    hw.WriteEpr(ch.index, ActivateOutValue(cur));
  }

  /** `Channel::<Out>::disable`: the transmit status becomes Disabled. */
  method DisableOut(hw: Usb, ch: Channel)
    requires hw.Valid() && ChannelValid(ch)
    modifies hw.epr
    ensures hw.epr[..] == old(hw.epr[..])[ch.index := old(hw.epr[ch.index]).(statTx := STAT_DISABLED)]
  {
    var cur := hw.epr[ch.index];
    hw.WriteEpr(ch.index, DisableOutValue(cur));
  }

  /** `read_data` into `dest[off..]`: more received bytes than that room is
      an overflow and copies nothing; otherwise the received bytes are copied
      from the channel's buffer to `dest[off..]`. The source asserts that the
      count does not exceed the channel's buffer. */
  method ReadData(hw: Usb, ch: Channel, dest: array<u8>, off: nat) returns (r: Result<nat>)
    requires hw.Valid() && ChannelValid(ch) && off <= dest.Length
    requires ReceivedCount(hw.ram[2 * ch.index + 1]) <= dest.Length - off ==> ReceivedCount(hw.ram[2 * ch.index + 1]) <= ch.buf.len
    modifies dest
    ensures ReceivedCount(hw.ram[2 * ch.index + 1]) > dest.Length - off ==> r == Err(BufferOverflow) && dest[..] == old(dest[..])
    ensures ReceivedCount(hw.ram[2 * ch.index + 1]) <= dest.Length - off ==>
      r == Ok(ReceivedCount(hw.ram[2 * ch.index + 1])) && BaseWord(ch.buf) + WordCount(ReceivedCount(hw.ram[2 * ch.index + 1])) <= RAM_WORDS &&
      dest[..] == old(dest[..])[..off] + Unpack(hw.ram[..], BaseWord(ch.buf), ReceivedCount(hw.ram[2 * ch.index + 1])) +
                  old(dest[..])[off + ReceivedCount(hw.ram[2 * ch.index + 1])..]
  {
    var rxLen := ReadOutLen(hw.ram[..], ch.index) as nat % 0x400;
    if rxLen > dest.Length - off {
      return Err(BufferOverflow);
    }
    Codec.Read(hw.ram, ch.buf, dest, off, rxLen);
    r := Ok(rxLen);
  }

  /** `write_data`: the data goes into the channel's buffer, then the
      transmit descriptor takes the buffer's address and the data length. */
  method WriteData(hw: Usb, ch: Channel, data: seq<u8>)
    requires hw.Valid() && ChannelValid(ch)
    requires |data| <= ch.buf.len
    modifies hw.ram
    ensures BaseWord(ch.buf) + WordCount(|data|) <= RAM_WORDS
    ensures hw.ram[..] ==
      Splice(old(hw.ram[..]), BaseWord(ch.buf), Pack(data))[2 * ch.index := DescriptorWord(ch.buf.addr, |data|)]
  {
    Codec.Write(hw.ram, ch.buf, data);
    WriteTransmitBufferDescriptor(hw.ram, ch.index, ch.buf.addr, |data|);
  }

  /** The receive status after a read poll's action. */
  function InStatAfter(e: Epr, a: Action): Epr
  {
    match a
    case NoAction => e
    case DisableChannel => e.(statRx := STAT_DISABLED)
    case Rearm => e.(statRx := STAT_VALID)
  }

  /** The transmit status after a write poll's action. */
  function OutStatAfter(e: Epr, a: Action): Epr
  {
    match a
    case NoAction => e
    case DisableChannel => e.(statTx := STAT_DISABLED)
    case Rearm => e.(statTx := STAT_VALID)
  }

  /** The source panics when a completed reception reports more bytes than
      the channel's buffer holds but no more than the room left in `dest`. */
  predicate ReadPanics(hw: Usb, ch: Channel, room: nat, elapsedMs: nat, timeoutMs: Option<nat>)
    reads hw, hw.epr, hw.ram
    requires hw.Valid() && ChannelValid(ch)
  {
    hw.istr.dconStat && !TimedOut(elapsedMs, timeoutMs) && hw.epr[ch.index].statRx == STAT_DISABLED &&
    ch.buf.len < ReceivedCount(hw.ram[2 * ch.index + 1]) <= room
  }

  /** Splicing in zero bytes copied leaves a buffer as it was. */
  lemma NothingCopied(xs: seq<u8>, k: nat, ram: seq<u32>, base: nat)
    requires k <= |xs| && base <= |ram|
    ensures xs[..k] + Unpack(ram, base, 0) + xs[k..] == xs
  {
    assert xs[..k] + xs[k..] == xs;
  }

  /** A `ChannelIn::read` in progress: the future's captured state, `count`
      being the bytes received so far into `buf`. */
  class InTransfer {
    const ch: Channel
    const buf: array<u8>
    const timeoutMs: Option<nat>
    var count: nat

    ghost predicate Valid()
      reads this
    {
      ChannelValid(ch) && count <= buf.Length
    }

    /** Starting a read arms the channel for reception, with nothing received. */
    constructor Start(hw: Usb, ch: Channel, buf: array<u8>, timeoutMs: Option<nat>)
      requires hw.Valid() && ChannelValid(ch)
      modifies hw.epr
      ensures Valid() && this.ch == ch && this.buf == buf && this.timeoutMs == timeoutMs && count == 0
      ensures hw.epr[..] == old(hw.epr[..])[ch.index := old(hw.epr[ch.index]).(statRx := STAT_VALID)]
    {
      this.ch := ch;
      this.buf := buf;
      this.timeoutMs := timeoutMs;
      count := 0;
      new;
      ActivateIn(hw, ch);
    }

    /** One poll, `elapsedMs` after the start: performs `ReadStepOf` on what
        the hardware shows. The running count, the channel register and the
        buffer change as that step says; nothing else does. */
    method Poll(hw: Usb, elapsedMs: nat) returns (poll: Poll<Result<nat>>)
      requires Valid() && hw.Valid()
      requires !ReadPanics(hw, ch, buf.Length - count, elapsedMs, timeoutMs)
      modifies this`count, hw.epr, buf
      ensures Valid()
      ensures var s := ReadStepOf(old(hw.istr.dconStat), elapsedMs, timeoutMs, old(hw.epr[ch.index].statRx),
                                  hw.ram[2 * ch.index + 1], old(count), buf.Length, ch.maxPacketSize);
        && poll == s.poll && count == s.count
        && hw.epr[..] == old(hw.epr[..])[ch.index := InStatAfter(old(hw.epr[ch.index]), s.action)]
        && BaseWord(ch.buf) + WordCount(s.received) <= RAM_WORDS
        && buf[..] == old(buf[..])[..old(count)] + Unpack(hw.ram[..], BaseWord(ch.buf), s.received) +
                      old(buf[..])[old(count) + s.received..]
    {
      ghost var s := ReadStepOf(hw.istr.dconStat, elapsedMs, timeoutMs, hw.epr[ch.index].statRx,
                                hw.ram[2 * ch.index + 1], count, buf.Length, ch.maxPacketSize);
      BufferWordsInRam(ch.buf, 0);
      NothingCopied(buf[..], count, hw.ram[..], BaseWord(ch.buf));
      if !hw.istr.dconStat {
        DisableIn(hw, ch);
        return Ready(Err(Disconnected));
      }
      if timeoutMs.Some? && elapsedMs > timeoutMs.value {
        DisableIn(hw, ch);
        return Ready(Err(Timeout));
      }
      var stat := hw.epr[ch.index].statRx;
      if stat == STAT_DISABLED {
        poll := TakeReceived(hw);
      } else if stat == STAT_STALL {
        poll := Ready(Err(Stall));
      } else {
        poll := Pending;
      }
    }

    /** The Disabled-status branch of a poll: a completed reception is taken
        out of packet memory as `ReadStepOf` says for a connected, in-time
        poll. */
    method TakeReceived(hw: Usb) returns (poll: Poll<Result<nat>>)
      requires Valid() && hw.Valid() && hw.epr[ch.index].statRx == STAT_DISABLED
      requires ReceivedCount(hw.ram[2 * ch.index + 1]) <= buf.Length - count ==> ReceivedCount(hw.ram[2 * ch.index + 1]) <= ch.buf.len
      modifies this`count, hw.epr, buf
      ensures Valid()
      ensures var s := ReadStepOf(true, 0, None, STAT_DISABLED, hw.ram[2 * ch.index + 1], old(count), buf.Length,
                                  ch.maxPacketSize);
        && poll == s.poll && count == s.count
        && hw.epr[..] == old(hw.epr[..])[ch.index := InStatAfter(old(hw.epr[ch.index]), s.action)]
        && BaseWord(ch.buf) + WordCount(s.received) <= RAM_WORDS
        && buf[..] == old(buf[..])[..old(count)] + Unpack(hw.ram[..], BaseWord(ch.buf), s.received) +
                      old(buf[..])[old(count) + s.received..]
    {
      ghost var n0 := ReceivedCount(hw.ram[2 * ch.index + 1]);
      ghost var s := ReadStepOf(true, 0, None, STAT_DISABLED, hw.ram[2 * ch.index + 1], count, buf.Length,
                                ch.maxPacketSize);
      NothingCopied(buf[..], count, hw.ram[..], BaseWord(ch.buf));
      var r := ReadData(hw, ch, buf, count);
      if r.Err? {
        assert s == ReadStep(Ready(Err(BufferOverflow)), NoAction, count, 0);
        return Ready(r);
      }
      var n := r.value;
      count := count + n;
      if count == buf.Length || n < ch.maxPacketSize {
        assert s == ReadStep(Ready(Ok(count)), NoAction, count, n0);
        poll := Ready(Ok(count));
      } else {
        assert s == ReadStep(Pending, Rearm, count, n0);
        ActivateIn(hw, ch);
        poll := Pending;
      }
    }
  }

  /** A `ChannelOut::write` in progress. */
  class OutTransfer {
    const ch: Channel
    const timeoutMs: Option<nat>

    ghost predicate Valid()
    {
      ChannelValid(ch)
    }

    /** Starting a write copies the data into the channel's buffer, programs
        the transmit descriptor with its length and arms the channel. The
        source asserts that the data fits the channel's buffer. */
    constructor Start(hw: Usb, ch: Channel, data: seq<u8>, timeoutMs: Option<nat>)
      requires hw.Valid() && ChannelValid(ch)
      requires |data| <= ch.buf.len
      modifies hw.epr, hw.ram
      ensures Valid() && this.ch == ch && this.timeoutMs == timeoutMs
      ensures BaseWord(ch.buf) + WordCount(|data|) <= RAM_WORDS
      ensures hw.ram[..] ==
        Splice(old(hw.ram[..]), BaseWord(ch.buf), Pack(data))[2 * ch.index := DescriptorWord(ch.buf.addr, |data|)]
      ensures hw.epr[..] == old(hw.epr[..])[ch.index := old(hw.epr[ch.index]).(statTx := STAT_VALID)]
    {
      this.ch := ch;
      this.timeoutMs := timeoutMs;
      new;
      WriteData(hw, ch, data);
      ActivateOut(hw, ch);
    }

    /** One poll, `elapsedMs` after the start: performs `WriteStepOf` on what
        the hardware shows. */
    method Poll(hw: Usb, elapsedMs: nat) returns (poll: Poll<Result<()>>)
      requires Valid() && hw.Valid()
      modifies hw.epr
      ensures var s := WriteStepOf(old(hw.istr.dconStat), elapsedMs, timeoutMs, old(hw.epr[ch.index].statTx));
        && poll == s.poll
        && hw.epr[..] == old(hw.epr[..])[ch.index := OutStatAfter(old(hw.epr[ch.index]), s.action)]
    {
      if !hw.istr.dconStat {
        DisableOut(hw, ch);
        return Ready(Err(Disconnected));
      }
      if timeoutMs.Some? && elapsedMs > timeoutMs.value {
        DisableOut(hw, ch);
        return Ready(Err(Timeout));
      }
      var stat := hw.epr[ch.index].statTx;
      if stat == STAT_DISABLED {
        poll := Ready(Ok(()));
      } else if stat == STAT_STALL {
        poll := Ready(Err(Stall));
      } else {
        poll := Pending;
      }
    }
  }
}
