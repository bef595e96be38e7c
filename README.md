# STM32 USB host-mode channel engine, in Dafny

This project models the channel transfer engine of the embassy STM32
host-mode USB driver (`embassy-stm32/src/usb/usb_host.rs`), on the 32-bit,
2048-byte packet memory variant (access granularity 4 bytes, 8 channels).
It covers:

- the encoders for buffer lengths and receive-descriptor length codes;
- the buffer descriptor table at the start of packet memory;
- the little-endian codec that moves byte slices into and out of 32-bit
  packet memory words;
- the register values the driver writes, under the peripheral's
  write-0-to-clear and toggle-on-1 semantics;
- the interrupt handler;
- channel activation and disabling;
- each read and write poll step, and sequences of polls;
- the driver's bump allocator, its two channel-in-use bitmasks, and channel
  claiming and allocation from endpoint descriptors.

Modules, one file each:

| module | file | contents |
|---|---|---|
| `Types` | types.dfy | integer widths, platform constants, `Option`, `Result`, `Poll`, transfer types |
| `LenEncoding` | len_encoding.dfy | `align_len_up`, `calc_receive_len_bits` and the code's decoding |
| `Registers` | registers.dfy | EPR and ISTR as records, their write semantics, every value the driver writes |
| `BufferTable` | btable.dfy | descriptor words |
| `Codec` | codec.dfy | `EndpointBuffer::read`/`write` over a word array |
| `Peripheral` | peripheral.dfy | class `Usb`: registers, packet memory, interrupt handler |
| `Steps` | steps.dfy | one read/write poll as a pure transition; runs of polls |
| `Channels` | channels.dfy | activation, `read_data`/`write_data`, in-progress transfers as classes |
| `Driver` | driver.dfy | class `HostDriver`: allocator, masks, claim/alloc, `reconfigure_channel0` |
| `AllocWrap` | alloc_wrap.dfy | the allocator's bounds check as written, with `u16` wrap-around |

Registers are records of named fields, not bit patterns: the field
positions live in the register-access crate, which is not part of this
model. A write is applied by `Registers.ApplyWrite` (EPR) and
`Registers.ApplyIstrWrite` (ISTR):

- complete and error flags: the new value is `old && written`;
- data toggle bits: the new value is `old != written`;
- 2-bit status fields: the new value is `old ^ written`;
- all other fields take the written value.

Each poll of an asynchronous transfer is one call of `Poll` on
`Channels.InTransfer` or `Channels.OutTransfer`. It takes the milliseconds
elapsed since the transfer started as a parameter, in place of the clock.
Its contract ties the poll to the pure step `Steps.ReadStepOf` or
`Steps.WriteStepOf`. The properties of those steps, and of runs of them
(`Steps.RunRead`, `Steps.RunWrite`), are proved there.

Rust panics (`assert!`, the `panic!` in `calc_receive_len_bits`) are
preconditions. The one exception is `calc_receive_len_bits` itself, which
returns `None` for lengths it would panic on. Recoverable failures
(`Err(())`, `ChannelError`) are modelled as `Option`/`Result` values.

Where `u8`/`u16` arithmetic in the source can overflow, the driver model
follows a release build, where overflow wraps, in two places:

- the cast back to `u16` in `align_len_up`;
- `endpoint_address - 0x80` in `alloc_channel_in`.

The third, `addr + len` in `alloc_channel_mem`, wraps only in
`AllocWrap.AllocAsWritten`, which writes the check out as found. The
driver's allocator `Driver.HostDriver.AllocChannelMem` is the corrected one:
it checks the unbounded sum (see "## Findings").

On the interrupt handler's error branch the model follows the code. That
branch sets each status field of the neutral write (`invariant`) to that
write's own status, which `invariant` has already set to 0. Both statuses are
therefore written 0, nothing toggles, and the write leaves the channel
register as it was, although the comment above it speaks of disabling the
channel.

## Model

| member | source | states |
|---|---|---|
| Types.ConvertType | embassy-stm32/src/usb/usb_host.rs:132-139 | each descriptor transfer type maps to its own register encoding, and the encoding maps back to it |
| LenEncoding.AlignLenUp | embassy-stm32/src/usb/usb_host.rs:151-153 | the result is the least multiple of 4 at or above the length; the three largest `u16` values wrap to 0 through the `as u16` cast |
| LenEncoding.CalcReceiveLenBits | embassy-stm32/src/usb/usb_host.rs:160-167 | a code exists exactly for 2..=1024. Up to 60, the length is `align_len_up(len)`, below `len + 4`, with bit 15 clear. Above 60, it is a multiple of 32 at most `len + 31`, with bit 15 set. In both ranges the peripheral's decoding of the code gives back that length, and the code leaves the count field clear |
| LenEncoding.TwoByteCode | embassy-stm32/src/usb/usb_host.rs:163 | an even length of at most 60 is coded as its number of 2-byte blocks with bit 15 clear, and decodes to itself |
| LenEncoding.BlockCount | embassy-stm32/src/usb/usb_host.rs:164 | 61..=1024 bytes need 2 to 32 blocks of 32 bytes, rounding up by at most 31 |
| LenEncoding.BlockCode | embassy-stm32/src/usb/usb_host.rs:164 | `blocks` 32-byte blocks are coded as `blocks - 1` with bit 15 set, and decode to `32 * blocks` |
| LenEncoding.EncodingIdempotent | embassy-stm32/src/usb/usb_host.rs:160-167 | encoding a rounded length again gives the same length and code |
| Registers.Invariant | embassy-stm32/src/usb/usb_host.rs:141-149 | writing `invariant(r)` back changes nothing. On any current register value it leaves every complete flag, toggle bit and status field as it is |
| Registers.ActivateInValue | embassy-stm32/src/usb/usb_host.rs:549-559 | the written value makes the receive status Valid from any status; nothing else changes |
| Registers.DisableInValue | embassy-stm32/src/usb/usb_host.rs:561-570 | the written value makes the receive status Disabled from any status; nothing else changes |
| Registers.ActivateOutValue | embassy-stm32/src/usb/usb_host.rs:646-656 | the transmit status becomes Valid; nothing else changes |
| Registers.DisableOutValue | embassy-stm32/src/usb/usb_host.rs:658-667 | the transmit status becomes Disabled; nothing else changes |
| Registers.ConfigureValue | embassy-stm32/src/usb/usb_host.rs:458-464 | the write sets the device address, transfer type and endpoint number and leaves flags, toggles and statuses alone |
| Registers.CtrClearValue | embassy-stm32/src/usb/usb_host.rs:53-75 | the complete flags are written as the inverse of what was read; the write clears both complete flags and both error flags of the register it was computed from |
| Registers.CtrClearKeepsLateEvents | embassy-stm32/src/usb/usb_host.rs:68-74 | a complete flag raised between the read and the write survives the write; only flags set when read are cleared |
| Registers.ErrWriteValue | embassy-stm32/src/usb/usb_host.rs:96-100 | both statuses are written 0, so the write leaves the register it was computed from unchanged and disturbs no complete flag, toggle bit or status of any later value |
| Registers.AllFlagsComplete | embassy-stm32/src/usb/usb_host.rs:88 | the word `!0` writes every clearable interrupt flag as 1 |
| Registers.ClearOnlyValue | embassy-stm32/src/usb/usb_host.rs:43-45 | `!0` with one flag set to 0 clears exactly that pending flag and keeps every other |
| BufferTable.DescriptorWord | embassy-stm32/src/usb/usb_host.rs:196-205 | address and high half of a descriptor word are each recovered from it |
| BufferTable.ReceivedCount | embassy-stm32/src/usb/usb_host.rs:540 | the received count is below 1024 |
| BufferTable.FreshReceiveCountIsZero | embassy-stm32/src/usb/usb_host.rs:454 | a receive descriptor just written with a length code reports zero received bytes |
| BufferTable.WriteTransmitBufferDescriptor | embassy-stm32/src/usb/usb_host.rs:186-191 | word `2 * index` takes the address and length; no other word changes |
| BufferTable.WriteReceiveBufferDescriptor | embassy-stm32/src/usb/usb_host.rs:196-205 | word `2 * index + 1` takes the address and length code; no other word changes |
| BufferTable.ReadOutLen | embassy-stm32/src/usb/usb_host.rs:207-209 | the result is the high half of the channel's receive descriptor word |
| Codec.PackWord | embassy-stm32/src/usb/usb_host.rs:232-239 | the word's little-endian bytes are the chunk's bytes in order, then zero padding |
| Codec.Splice | embassy-stm32/src/usb/usb_host.rs:229-245 | exactly the words from `start` for the length of the written words change |
| Codec.ReadAfterWrite | embassy-stm32/src/usb/usb_host.rs:220-245 | reading any prefix of what `write` stored returns that prefix of the written bytes |
| Codec.WritePadsWithZero | embassy-stm32/src/usb/usb_host.rs:232-234 | the bytes of the last word past the end of the data are zero |
| Codec.Write | embassy-stm32/src/usb/usb_host.rs:229-245 | packet memory becomes the packed bytes spliced in at the buffer's first word, and nothing else changes; the data must fit the buffer |
| Codec.Read | embassy-stm32/src/usb/usb_host.rs:220-227 | `dest[off .. off + n]` becomes the first `n` unpacked bytes of the buffer and the rest of `dest` is unchanged; `n` must fit the buffer |
| Peripheral.Usb.WriteEpr | embassy-stm32/src/usb/usb_host.rs:74 | a register write combines the written value with the current one; no other register changes |
| Peripheral.Usb.WriteIstr | embassy-stm32/src/usb/usb_host.rs:45 | an ISTR write clears exactly the pending flags written 0 |
| Peripheral.Usb.OnInterrupt | embassy-stm32/src/usb/usb_host.rs:29-111 | the bus waiter is woken iff a reset was pending, the In/Out waiters iff the complete flags were set on the completed channel. The pending flags and the channel register end as the two branch functions say: the complete branch clears the channel's complete and error flags, and the error branch leaves the register as it was. A bare interrupt has every pending flag cleared |
| Steps.ReadStepOf | embassy-stm32/src/usb/usb_host.rs:590-634 | disconnect comes first, then timeout, each disabling the channel. Overflow happens iff the received count exceeds the room left. Success happens iff the packet fills the buffer or is short, with `Ok(count)`. Stall gives `Err(Stall)`. Nak or Valid give Pending with nothing taken and no action. Re-arming, with the read still pending, happens exactly after a full packet with room left. On success or re-arm the bytes taken are the descriptor's received count. The count never exceeds the buffer |
| Steps.WriteStepOf | embassy-stm32/src/usb/usb_host.rs:688-714 | disconnect, then timeout, each disabling the channel. Then Disabled gives Ok, Stall gives Err(Stall), and Nak or Valid give Pending, each iff |
| Steps.RunRead | embassy-stm32/src/usb/usb_host.rs:588-636 | over successive polls the count is the sum of the packets taken and stays within the buffer. Every packet but the last is full-sized, and the channel is re-armed once per full packet. A pending run used every poll; a finished one ran at least one |
| Steps.RunReadStep | embassy-stm32/src/usb/usb_host.rs:590-634 | a run whose first poll is pending is that poll's packet, if its status was Disabled, followed by the run of the remaining polls from the new count |
| Steps.RunReadGoesOnUntilLast | embassy-stm32/src/usb/usb_host.rs:593-605 | every poll of a run before its last saw the device connected, no timeout and no stall |
| Steps.RunReadPendingUntilLast | embassy-stm32/src/usb/usb_host.rs:590-634 | every poll of a run before its last stayed pending, its step taken from the count the packets before it reached |
| Steps.RunReadTakes | embassy-stm32/src/usb/usb_host.rs:609-623 | the packets of a run are the received counts of the Disabled polls before its last, then, on success, the count of the last poll |
| Steps.RunReadEnds | embassy-stm32/src/usb/usb_host.rs:590-634 | a finished run's outcome and action are those of the step at its last poll, taken from the count its earlier packets reached |
| Steps.ReadDisconnectEnds | embassy-stm32/src/usb/usb_host.rs:594-598 | after any number of waiting polls, the first poll that sees no device ends the read with Disconnected, nothing taken, having disabled the channel |
| Steps.ReceivedWord | embassy-stm32/src/usb/usb_host.rs:540 | a descriptor holding `n` received bytes reports `n` |
| Steps.ThreePacketRead | embassy-stm32/src/usb/usb_host.rs:609-623 | 64-, 64- and 20-byte packets into a 200-byte buffer give `Ok(148)` after two re-arms |
| Steps.RunWrite | embassy-stm32/src/usb/usb_host.rs:688-714 | every poll before the last was pending, and a finished run's outcome and action are those of the step at its last poll. A run stays pending iff every poll was pending, having used every poll with no action. It disables the channel only on disconnect or timeout |
| Steps.WriteDisconnectEnds | embassy-stm32/src/usb/usb_host.rs:693-697 | after any number of waiting polls, the first poll that sees no device ends the write with Disconnected, having disabled the channel |
| Steps.WriteNakTimesOut | embassy-stm32/src/usb/usb_host.rs:698-704 | a write that keeps seeing Nak ends with Timeout at the first poll past the deadline, disabling the channel |
| Channels.ActivateIn | embassy-stm32/src/usb/usb_host.rs:549-559 | the channel's receive status becomes Valid; no other register or field changes |
| Channels.DisableIn | embassy-stm32/src/usb/usb_host.rs:561-570 | the channel's receive status becomes Disabled; no other register or field changes |
| Channels.ActivateOut | embassy-stm32/src/usb/usb_host.rs:646-656 | the channel's transmit status becomes Valid; no other register or field changes |
| Channels.DisableOut | embassy-stm32/src/usb/usb_host.rs:658-667 | the channel's transmit status becomes Disabled; no other register or field changes |
| Channels.ReadData | embassy-stm32/src/usb/usb_host.rs:538-547 | more received bytes than the room left is BufferOverflow with `dest` untouched. Otherwise the received bytes land at `dest[off..]` and their count is returned |
| Channels.WriteData | embassy-stm32/src/usb/usb_host.rs:640-644 | the data is packed into the channel's buffer, then the transmit descriptor takes the buffer address and data length |
| Channels.InTransfer.Start | embassy-stm32/src/usb/usb_host.rs:574-588 | starting a read arms reception with nothing received |
| Channels.InTransfer.Poll | embassy-stm32/src/usb/usb_host.rs:590-634 | the poll's outcome, new count, register change and buffer contents are those of `ReadStepOf` on what the hardware shows |
| Channels.InTransfer.TakeReceived | embassy-stm32/src/usb/usb_host.rs:609-623 | the Disabled-status branch moves the received packet into the buffer and ends or re-arms as `ReadStepOf` says |
| Channels.OutTransfer.Start | embassy-stm32/src/usb/usb_host.rs:671-686 | starting a write stores the data and transmit descriptor, then arms transmission |
| Channels.OutTransfer.Poll | embassy-stm32/src/usb/usb_host.rs:688-714 | the poll's outcome and register change are those of `WriteStepOf` |
| Driver.TiledExtend | embassy-stm32/src/usb/usb_host.rs:423-433 | a region handed out at the first free byte extends the back-to-back tiling of packet memory |
| Driver.TiledDisjoint | embassy-stm32/src/usb/usb_host.rs:423-433 | the regions of a tiling lie between its ends and never overlap |
| Driver.Claimed | embassy-stm32/src/usb/usb_host.rs:447 | setting a channel's bit marks it and keeps every other mark |
| Driver.InIndex | embassy-stm32/src/usb/usb_host.rs:722 | an In address maps to its endpoint number; an Out address wraps to 128 or more |
| Driver.HostDriver.constructor | embassy-stm32/src/usb/usb_host.rs:306-313 | nothing past the descriptor table is allocated, no channel is in use |
| Driver.HostDriver.ResetAlloc | embassy-stm32/src/usb/usb_host.rs:415-421 | the first free byte is back at the end of the descriptor table and no channel is in use |
| Driver.HostDriver.AllocChannelMem | embassy-stm32/src/usb/usb_host.rs:423-433 | on success it returns the old first free byte and advances it by exactly `len`. The region lies past the descriptor table, inside packet memory, after every earlier region. On failure nothing changes; the first free byte never passes the memory's end |
| Driver.HostDriver.ClaimChannelIn | embassy-stm32/src/usb/usb_host.rs:435-467 | an index in use fails with nothing changed. Otherwise the index is marked, even when memory then runs out. On success the channel holds the rounded receive length at the old first free byte, which is appended to the allocated regions, the receive descriptor holds its address and length code, and the register is bound |
| Driver.HostDriver.ClaimChannelOut | embassy-stm32/src/usb/usb_host.rs:469-501 | as for In, with `align_len_up` of the packet size and no descriptor written |
| Driver.HostDriver.AllocChannelIn | embassy-stm32/src/usb/usb_host.rs:721-742 | index 0 and indices past 7 are refused before anything changes. Otherwise it is `ClaimChannelIn` at the endpoint address less 0x80, with channel 0's device address and the converted type. The mask, the first free byte, the receive descriptor and the channel register end as that claim's contract states |
| Driver.HostDriver.AllocChannelOut | embassy-stm32/src/usb/usb_host.rs:744-760 | the same for Out through `ClaimChannelOut`, the index being the endpoint address; packet memory does not change |
| Driver.HostDriver.ReconfigureChannel0 | embassy-stm32/src/usb/usb_host.rs:762-772 | after freeing all memory, channel 0 In always binds at the end of the descriptor table. The call succeeds iff the Out buffer fits after it, and only channel 0 is marked. On either outcome, channel 0's register is bound as a control channel to `devAddr`, and its receive descriptor holds the table's end and the length code; no other register or word changes |
| Driver.ClaimTwiceThenReset | embassy-stm32/src/usb/usb_host.rs:442-452 | a second claim of the same index fails; after `reset_alloc` the same claim succeeds again with the same buffer |
| AllocWrap.AllocAsWritten | embassy-stm32/src/usb/usb_host.rs:423-433 | the `u16` check as written agrees with the unbounded check whenever `addr + len` does not wrap |
| AllocWrap.AllocAsWrittenWrapsIntoDescriptorTable | embassy-stm32/src/usb/usb_host.rs:425-431 | a 65520-byte Out buffer on a fresh allocator passes the wrapped check and moves the first free byte to 48, inside the descriptor table |

## Left out

- `USBHostDriver::new` peripheral bring-up and `start` (clock, power and pin configuration, delays): hardware setup with no contract. The constructor models only the field initialisation.
- `bus_reset`, `wait_for_device_connect`, `wait_for_device_disconnect`: timer- and waker-driven sequencing with no state beyond one flag test.
- `control_request_in`/`control_request_out`: thin async sequencing of the modelled read and write steps with fixed timeouts.
- `get_status`: a raw register read.
- The `AtomicWaker` statics and waker registration, and `poll_fn` scheduling: concurrency machinery. A wake is a returned flag (`Peripheral.Wakes`), and each poll is one method call.
- `Instant`/`Duration`: elapsed milliseconds are a parameter of each poll.
- The 16-bit packet memory variants selected by `#[cfg]` (`USBRAM_ALIGN` 2, sizes 512/1024, 16-bit descriptor layout): the model fixes the 32-bit, 2048-byte variant.
- Logging macros.
- The no-op `btable::write_in`: it changes nothing, so `ClaimChannelOut` writes no descriptor.
- Register bit positions and the ISTR fields the driver never reads: registers are records of the fields the driver uses.
- Peripheral.Usb.OnInterrupt: the read-only ISTR fields (`ctr`, `ep_id`, `dcon_stat`) are not recomputed by the hardware after the handler's writes; only the clearable flags change.
- Rust debug-build overflow panics: the model follows release-build wrap-around.
- Driver.HostDriver.AllocChannelMem: the `u16` wrap of `addr + len` is modelled only in `AllocWrap.AllocAsWritten`. The driver checks the unbounded sum, so it refuses buffers that a release build of the source hands out, such as an Out buffer for a maximum packet size of 65520.

## Findings

| source | as written | input that shows it | evidently intended | confidence | as-written member | corrected member |
|---|---|---|---|---|---|---|
| embassy-stm32/src/usb/usb_host.rs:425-431 | `addr + len > USBRAM_SIZE` and `ep_mem_free += len` in `u16`, wrapping in a release build | `alloc_channel_out` with a device-reported max packet size of 65520 on a fresh allocator: `64 + 65520` wraps to 48, the check passes, and `ep_mem_free` becomes 48, inside the descriptor table | reject any region whose end passes the end of packet memory | not executed | AllocWrap.AllocAsWrittenWrapsIntoDescriptorTable | Driver.HostDriver.AllocChannelMem |
