/** The channel-control register (EPR) and the interrupt status register
    (ISTR) as records of their fields, with the peripheral's write semantics:
    a write does not store the written value but combines it with the
    current one, field by field. Every register value the driver writes is
    computed here, together with the state that write produces. */
module Registers {
  import opened Types

  /** Two-bit transaction status of one direction. The values are the
      hardware's: 0 Disabled, 1 Stall, 2 Nak, 3 Valid. */
  const STAT_DISABLED: bv2 := 0
  const STAT_STALL: bv2 := 1
  const STAT_NAK: bv2 := 2
  const STAT_VALID: bv2 := 3

  /** One channel-control register.
      - `ctrRx`/`ctrTx` (transaction complete) and `errRx`/`errTx` are set by
        the hardware; writing 0 clears them, writing 1 leaves them alone.
      - `dtogRx`/`dtogTx` and `statRx`/`statTx` toggle where a 1 is written.
      - `ea`, `epType` and `devAddr` are ordinary read/write fields. */
  datatype Epr = Epr(
    ctrRx: bool, dtogRx: bool, statRx: bv2,
    ctrTx: bool, dtogTx: bool, statTx: bv2,
    errRx: bool, errTx: bool,
    ea: nat, epType: EpType, devAddr: u8)

  /** The register state after writing `w` to a register holding `cur`. */
  function ApplyWrite(cur: Epr, w: Epr): Epr
  {
    Epr(
      ctrRx := cur.ctrRx && w.ctrRx, dtogRx := cur.dtogRx != w.dtogRx, statRx := cur.statRx ^ w.statRx,
      ctrTx := cur.ctrTx && w.ctrTx, dtogTx := cur.dtogTx != w.dtogTx, statTx := cur.statTx ^ w.statTx,
      errRx := cur.errRx && w.errRx, errTx := cur.errTx && w.errTx,
      ea := w.ea, epType := w.epType, devAddr := w.devAddr)
  }

  /** The hardware-owned fields a careless write could disturb. */
  predicate SameEventFields(a: Epr, b: Epr)
  {
    a.ctrRx == b.ctrRx && a.ctrTx == b.ctrTx && a.dtogRx == b.dtogRx && a.dtogTx == b.dtogTx &&
    a.statRx == b.statRx && a.statTx == b.statTx
  }

  /** The neutral write for a register read as `r`: complete flags written 1,
      toggle bits written 0, everything else as read. */
  function Invariant(r: Epr): (w: Epr)
    ensures ApplyWrite(r, w) == r
    ensures forall now: Epr {:trigger ApplyWrite(now, w)} :: SameEventFields(ApplyWrite(now, w), now)
  {
    r.(ctrRx := true, ctrTx := true, dtogRx := false, dtogTx := false,
       statRx := STAT_DISABLED, statTx := STAT_DISABLED)
  }

  /** `ChannelIn::activate`: toggles the receive status by its complement,
      which reaches Valid from any status. */
  function ActivateInValue(cur: Epr): (w: Epr)
    ensures ApplyWrite(cur, w) == cur.(statRx := STAT_VALID)
  {
    Invariant(cur).(statRx := !cur.statRx)
  }

  /** `ChannelIn::disable`: toggles the receive status by itself, which
      reaches Disabled from any status. */
  function DisableInValue(cur: Epr): (w: Epr)
    ensures ApplyWrite(cur, w) == cur.(statRx := STAT_DISABLED)
  {
    Invariant(cur).(statRx := cur.statRx)
  }

  /** `ChannelOut::activate`, for the transmit status. */
  function ActivateOutValue(cur: Epr): (w: Epr)
    ensures ApplyWrite(cur, w) == cur.(statTx := STAT_VALID)
  {
    Invariant(cur).(statTx := !cur.statTx)
  }

  /** `ChannelOut::disable`, for the transmit status. */
  function DisableOutValue(cur: Epr): (w: Epr)
    ensures ApplyWrite(cur, w) == cur.(statTx := STAT_DISABLED)
  {
    Invariant(cur).(statTx := cur.statTx)
  }

  /** The write that binds a channel register to a device address, a
      transfer type and an endpoint number, leaving its state alone. */
  function ConfigureValue(cur: Epr, devAddr: u8, epType: EpType, ea: nat): (w: Epr)
    ensures ApplyWrite(cur, w) == cur.(devAddr := devAddr, epType := epType, ea := ea)
  {
    Invariant(cur).(devAddr := devAddr, epType := epType, ea := ea)
  }

  /** The interrupt's write on a completed transaction: clears the error flags
      that were set and writes each complete flag as the inverse of what was
      read, so only the flags that were asserted are cleared. */
  function CtrClearValue(cur: Epr): (w: Epr)
    ensures ApplyWrite(cur, w) == cur.(ctrRx := false, ctrTx := false, errRx := false, errTx := false)
    ensures w.ctrRx == !cur.ctrRx && w.ctrTx == !cur.ctrTx
  {
    var base := Invariant(cur);
    var noTx := if cur.errTx then base.(errTx := false) else base;
    var noErr := if cur.errRx then noTx.(errRx := false) else noTx;
    noErr.(ctrRx := !cur.ctrRx, ctrTx := !cur.ctrTx)
  }

  /** A complete flag the hardware raises after the interrupt read the
      register and before it wrote it survives that write: only flags that
      were set when read are cleared. */
  lemma CtrClearKeepsLateEvents(read: Epr, now: Epr)
    requires now == read.(ctrRx := now.ctrRx, ctrTx := now.ctrTx)
    requires read.ctrRx ==> now.ctrRx
    requires read.ctrTx ==> now.ctrTx
    ensures ApplyWrite(now, CtrClearValue(read)) ==
      read.(ctrRx := now.ctrRx && !read.ctrRx, ctrTx := now.ctrTx && !read.ctrTx, errRx := false, errTx := false)
  {
  }

  /** The interrupt's write on a transaction error. Each status field is set
      to its own value in the neutral write, where both are Disabled, so both
      are written 0 and neither toggles: the write changes nothing on the
      register it was computed from, and no event field on any later value. */
  function ErrWriteValue(cur: Epr): (w: Epr)
    ensures w.statRx == STAT_DISABLED && w.statTx == STAT_DISABLED
    ensures ApplyWrite(cur, w) == cur
    ensures forall now: Epr {:trigger ApplyWrite(now, w)} :: SameEventFields(ApplyWrite(now, w), now)
  {
    var e := Invariant(cur);
    e.(statRx := e.statRx, statTx := e.statTx)
  }

  /** Interrupt status flags that are cleared by writing 0 to them. */
  datatype IstrFlag = Reset | Error | PmaOverrun | StartOfFrame | ExpectedStartOfFrame | Suspend | Wakeup | L1Request

  /** The interrupt status register: the pending clearable flags, and the
      read-only summary fields the driver reads (transaction complete, the
      channel it belongs to, and whether a device is connected). */
  datatype Istr = Istr(pending: set<IstrFlag>, ctr: bool, epId: nat, dconStat: bool)

  /** The word `!0`: every clearable flag written 1. */
  function AllFlags(): set<IstrFlag>
  {
    {Reset, Error, PmaOverrun, StartOfFrame, ExpectedStartOfFrame, Suspend, Wakeup, L1Request}
  }

  /** `AllFlags` lists every flag, so writing it clears nothing. */
  lemma AllFlagsComplete()
    ensures forall f: IstrFlag :: f in AllFlags()
  {
    forall f: IstrFlag
      ensures f in AllFlags()
    {
      match f
      case Reset =>
      case Error =>
      case PmaOverrun =>
      case StartOfFrame =>
      case ExpectedStartOfFrame =>
      case Suspend =>
      case Wakeup =>
      case L1Request =>
    }
  }

  /** The register state after writing the flags in `w` as 1 and all others
      as 0. */
  function ApplyIstrWrite(cur: Istr, w: set<IstrFlag>): Istr
  {
    cur.(pending := cur.pending * w)
  }

  /** The word `!0` with one flag set to 0: clears that flag and no other. */
  function ClearOnlyValue(f: IstrFlag): (w: set<IstrFlag>)
    ensures forall cur: Istr {:trigger ApplyIstrWrite(cur, w)} ::
      ApplyIstrWrite(cur, w) == cur.(pending := cur.pending - {f})
  {
    AllFlagsComplete();
    AllFlags() - {f}
  }
}
